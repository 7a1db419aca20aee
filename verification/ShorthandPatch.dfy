/** The shorthand branch of the patch commands (cmd/client/main.go) as code over nested maps updated in place:
    setNestedField moves a `current` reference down the maps, and the flag loops fold it over the flags. */
module ShorthandPatch {
  import opened Prelude
  import opened MergePatch

  /** A field of a Go map: a value, or a reference to another map. */
  datatype Cell = Val(j: Json) | Ref(at: nat)

  /** The allocated maps. A map's references point to maps allocated later. */
  type Maps = seq<map<string, Cell>>

  ghost predicate IsRef(maps: Maps, i: nat, k: string) {
    i < |maps| && k in maps[i] && maps[i][k].Ref?
  }

  ghost predicate Ordered(maps: Maps) {
    forall i: nat, k :: IsRef(maps, i, k) ==> i < maps[i][k].at < |maps|
  }

  /** No two fields share a map. */
  ghost predicate Unshared(maps: Maps) {
    forall i: nat, k, j: nat, l :: IsRef(maps, i, k) && IsRef(maps, j, l) && maps[i][k].at == maps[j][l].at ==>
      i == j && k == l
  }

  /** The JSON object a map stands for. */
  function Content(maps: Maps, i: nat): Fields
    requires Ordered(maps) && i < |maps|
    decreases |maps| - i
  {
    map k | k in maps[i] ::
      if maps[i][k].Val? then maps[i][k].j
      else assert IsRef(maps, i, k); Obj(Content(maps, maps[i][k].at))
  }

  /** The object map `i` would stand for if map `cur` stood for `g`. */
  ghost function With(maps: Maps, i: nat, cur: nat, g: Fields): Fields
    requires Ordered(maps) && i < |maps|
    decreases |maps| - i
  {
    if i == cur then g
    else
      map k | k in maps[i] ::
        if maps[i][k].Val? then maps[i][k].j
        else assert IsRef(maps, i, k); Obj(With(maps, maps[i][k].at, cur, g))
  }

  lemma {:induction false} WithAbove(maps: Maps, i: nat, cur: nat, g: Fields)
    requires Ordered(maps) && cur < i < |maps|
    ensures With(maps, i, cur, g) == Content(maps, i)
    decreases |maps| - i
  {
    forall k | IsRef(maps, i, k) ensures With(maps, maps[i][k].at, cur, g) == Content(maps, maps[i][k].at) {
      WithAbove(maps, maps[i][k].at, cur, g);
    }
  }

  /** `c` hangs only below `cur`, so maps allocated after `cur`, other than `c`, do not see it. */
  lemma {:induction false} WithUnseen(maps: Maps, i: nat, cur: nat, part: string, g: Fields)
    requires Ordered(maps) && Unshared(maps) && IsRef(maps, cur, part)
    requires cur < i < |maps| && i != maps[cur][part].at
    ensures With(maps, i, maps[cur][part].at, g) == Content(maps, i)
    decreases |maps| - i
  {
    var c := maps[cur][part].at;
    forall k | IsRef(maps, i, k) ensures With(maps, maps[i][k].at, c, g) == Content(maps, maps[i][k].at) {
      WithUnseen(maps, maps[i][k].at, cur, part, g);
    }
  }

  /** Moving `current` from a map to the map in its field `part`. */
  lemma {:induction false} MoveDown(maps: Maps, i: nat, cur: nat, part: string, g: Fields)
    requires Ordered(maps) && Unshared(maps) && IsRef(maps, cur, part) && i <= cur
    ensures With(maps, i, maps[cur][part].at, g) == With(maps, i, cur, Content(maps, cur)[part := Obj(g)])
    decreases |maps| - i
  {
    var c := maps[cur][part].at;
    var h := Content(maps, cur)[part := Obj(g)];
    if i == cur {
      forall k | IsRef(maps, cur, k) && k != part
        ensures With(maps, maps[cur][k].at, c, g) == Content(maps, maps[cur][k].at)
      {
        WithUnseen(maps, maps[cur][k].at, cur, part, g);
      }
      assert With(maps, cur, c, g) == h;
    } else {
      forall k | IsRef(maps, i, k) ensures With(maps, maps[i][k].at, c, g) == With(maps, maps[i][k].at, cur, h) {
        var e := maps[i][k].at;
        if e <= cur {
          MoveDown(maps, e, cur, part, g);
        } else {
          WithUnseen(maps, e, cur, part, g);
          WithAbove(maps, e, cur, h);
        }
      }
    }
  }

  /** Writing to map `cur` changes what the others stand for only through `cur`. */
  lemma {:induction false} Written(maps: Maps, maps': Maps, i: nat, cur: nat, g: Fields)
    requires Ordered(maps) && Ordered(maps') && |maps| == |maps'| && i < |maps| && cur < |maps|
    requires forall j :: 0 <= j < |maps| && j != cur ==> maps'[j] == maps[j]
    ensures With(maps', i, cur, g) == With(maps, i, cur, g)
    ensures Content(maps', i) == With(maps, i, cur, Content(maps', cur))
    decreases |maps| - i
  {
    if i != cur {
      forall k | IsRef(maps, i, k)
        ensures With(maps', maps[i][k].at, cur, g) == With(maps, maps[i][k].at, cur, g)
        ensures Content(maps', maps[i][k].at) == With(maps, maps[i][k].at, cur, Content(maps', cur))
      {
        Written(maps, maps', maps[i][k].at, cur, g);
      }
    }
  }

  lemma {:induction false} Grown(maps: Maps, m: map<string, Cell>, i: nat, cur: nat, g: Fields)
    requires Ordered(maps) && Ordered(maps + [m]) && i < |maps|
    ensures Content(maps + [m], i) == Content(maps, i)
    ensures With(maps + [m], i, cur, g) == With(maps, i, cur, g)
    decreases |maps| - i
  {
    forall k | IsRef(maps, i, k)
      ensures Content(maps + [m], maps[i][k].at) == Content(maps, maps[i][k].at)
      ensures With(maps + [m], maps[i][k].at, cur, g) == With(maps, maps[i][k].at, cur, g)
    {
      Grown(maps, m, maps[i][k].at, cur, g);
    }
  }

  /** A parsed object as a map of its own. */
  function Flat(f: Fields): map<string, Cell> {
    map k | k in f :: Val(f[k])
  }

  ghost predicate Tree(maps: Maps) {
    maps != [] && Ordered(maps) && Unshared(maps)
  }

  /** A reference after the new map was put in place is the new one or an old one. */
  lemma NewChildRef(maps: Maps, cur: nat, part: string, f: Fields, maps': Maps, i: nat, k: string)
    requires cur < |maps| && maps' == (maps + [Flat(f)])[cur := maps[cur][part := Ref(|maps|)]] && IsRef(maps', i, k)
    ensures if i == cur && k == part then maps'[i][k].at == |maps| else IsRef(maps, i, k) && maps[i][k] == maps'[i][k]
  {
  }

  lemma WithFlatIsOrdered(maps: Maps, f: Fields)
    requires Ordered(maps)
    ensures Ordered(maps + [Flat(f)])
  {
    var maps' := maps + [Flat(f)];
    forall i: nat, k | IsRef(maps', i, k) ensures i < maps'[i][k].at < |maps'| {
      assert IsRef(maps, i, k) && maps[i][k] == maps'[i][k];
    }
  }

  lemma NewChildIsTree(maps: Maps, cur: nat, part: string, f: Fields, maps': Maps)
    requires Tree(maps) && cur < |maps|
    requires maps' == (maps + [Flat(f)])[cur := maps[cur][part := Ref(|maps|)]]
    ensures Tree(maps') && Ordered(maps + [Flat(f)])
  {
    WithFlatIsOrdered(maps, f);
    forall i: nat, k | IsRef(maps', i, k) ensures i < maps'[i][k].at < |maps'| {
      NewChildRef(maps, cur, part, f, maps', i, k);
    }
    forall i: nat, k, j: nat, l | IsRef(maps', i, k) && IsRef(maps', j, l) && maps'[i][k].at == maps'[j][l].at
      ensures i == j && k == l
    {
      NewChildRef(maps, cur, part, f, maps', i, k);
      NewChildRef(maps, cur, part, f, maps', j, l);
    }
  }

  lemma NewChildContent(maps: Maps, cur: nat, part: string, f: Fields, maps': Maps)
    requires cur < |maps| && maps' == (maps + [Flat(f)])[cur := maps[cur][part := Ref(|maps|)]] && Ordered(maps')
    ensures Content(maps', |maps|) == f
  {
    assert maps'[|maps|] == Flat(f);
  }

  lemma OldChild(maps: Maps, cur: nat, part: string, f: Fields, maps': Maps, k: string)
    requires Tree(maps) && cur < |maps| && IsRef(maps, cur, k)
    requires maps' == (maps + [Flat(f)])[cur := maps[cur][part := Ref(|maps|)]]
    requires Tree(maps') && Ordered(maps + [Flat(f)])
    ensures Content(maps', maps[cur][k].at) == Content(maps, maps[cur][k].at)
  {
    var e := maps[cur][k].at;
    Grown(maps, Flat(f), e, cur, map[]);
    Written(maps + [Flat(f)], maps', e, cur, map[]);
    WithAbove(maps + [Flat(f)], e, cur, Content(maps', cur));
  }

  /** One field of what a map stands for. */
  lemma FieldOf(maps: Maps, i: nat, k: string)
    requires Ordered(maps) && i < |maps|
    ensures k in Content(maps, i) <==> k in maps[i]
    ensures k in maps[i] && maps[i][k].Val? ==> Content(maps, i)[k] == maps[i][k].j
    ensures IsRef(maps, i, k) ==> Content(maps, i)[k] == Obj(Content(maps, maps[i][k].at))
  {
  }

  lemma OldField(maps: Maps, cur: nat, part: string, f: Fields, maps': Maps, k: string)
    requires Tree(maps) && cur < |maps| && k != part
    requires maps' == (maps + [Flat(f)])[cur := maps[cur][part := Ref(|maps|)]]
    requires Tree(maps') && Ordered(maps + [Flat(f)])
    ensures k in Content(maps', cur) <==> k in Content(maps, cur)
    ensures k in Content(maps, cur) ==> Content(maps', cur)[k] == Content(maps, cur)[k]
  {
    FieldOf(maps, cur, k);
    FieldOf(maps', cur, k);
    if IsRef(maps, cur, k) {
      OldChild(maps, cur, part, f, maps', k);
    }
  }

  /** Putting a new map for `part` where `cur` has none: `cur` then holds its own child object by reference. */
  lemma NewChild(maps: Maps, cur: nat, part: string, f: Fields, maps': Maps)
    requires Tree(maps) && cur < |maps|
    requires maps' == (maps + [Flat(f)])[cur := maps[cur][part := Ref(|maps|)]]
    ensures Tree(maps') && IsRef(maps', cur, part) && maps'[cur][part].at == |maps|
    ensures Content(maps', |maps|) == f && Content(maps', cur) == Content(maps, cur)[part := Obj(f)]
  {
    NewChildIsTree(maps, cur, part, f, maps');
    NewChildContent(maps, cur, part, f, maps');
    var want, got := Content(maps, cur)[part := Obj(f)], Content(maps', cur);
    FieldOf(maps', cur, part);
    forall k | k != part ensures (k in got <==> k in want) && (k in want ==> got[k] == want[k]) {
      OldField(maps, cur, part, f, maps', k);
    }
    assert got.Keys == want.Keys;
  }

  /** Setting `rest` below map `current` is all that is left to do to make map 0 stand for `goal`. */
  ghost predicate Aims(maps: Maps, current: nat, rest: Path, value: Json, goal: Fields) {
    && Tree(maps) && current < |maps| && rest != []
    && With(maps, 0, current, SetIn(Content(maps, current), rest, value)) == goal
  }

  lemma AimDown(maps: Maps, current: nat, rest: Path, value: Json, goal: Fields)
    requires Aims(maps, current, rest, value, goal) && |rest| >= 2 && IsRef(maps, current, rest[0])
    ensures Aims(maps, maps[current][rest[0]].at, rest[1..], value, goal)
  {
    var nested := maps[current][rest[0]].at;
    assert Child(Content(maps, current), rest[0]) == Content(maps, nested);
    MoveDown(maps, 0, current, rest[0], SetIn(Content(maps, nested), rest[1..], value));
  }

  lemma NewChildElsewhere(maps: Maps, cur: nat, part: string, f: Fields, maps': Maps, g: Fields)
    requires Tree(maps) && cur < |maps|
    requires maps' == (maps + [Flat(f)])[cur := maps[cur][part := Ref(|maps|)]]
    requires Ordered(maps') && Ordered(maps + [Flat(f)])
    ensures With(maps', 0, cur, g) == With(maps, 0, cur, g)
  {
    Grown(maps, Flat(f), 0, cur, g);
    Written(maps + [Flat(f)], maps', 0, cur, g);
  }

  lemma SetThroughChild(f: Fields, rest: Path, value: Json)
    requires |rest| >= 2
    ensures SetIn(f[rest[0] := Obj(Child(f, rest[0]))], rest, value) == SetIn(f, rest, value)
  {
  }

  /** Making the missing child changes nothing but the representation. */
  lemma AimStays(maps: Maps, current: nat, rest: Path, value: Json, goal: Fields, f: Fields, maps': Maps)
    requires Aims(maps, current, rest, value, goal) && |rest| >= 2 && !IsRef(maps, current, rest[0])
    requires f == Child(Content(maps, current), rest[0])
    requires maps' == (maps + [Flat(f)])[current := maps[current][rest[0] := Ref(|maps|)]]
    ensures Aims(maps', current, rest, value, goal) && IsRef(maps', current, rest[0])
    ensures maps'[current][rest[0]].at == |maps|
  {
    NewChild(maps, current, rest[0], f, maps');
    NewChildIsTree(maps, current, rest[0], f, maps');
    SetThroughChild(Content(maps, current), rest, value);
    NewChildElsewhere(maps, current, rest[0], f, maps', SetIn(Content(maps, current), rest, value));
  }

  lemma AimHit(maps: Maps, current: nat, last: string, value: Json, goal: Fields, maps': Maps)
    requires Aims(maps, current, [last], value, goal)
    requires maps' == maps[current := maps[current][last := Val(value)]]
    ensures Tree(maps') && Content(maps', 0) == goal
  {
    LastWrite(maps, current, last, value, maps');
    Written(maps, maps', 0, current, map[]);
  }

  class PatchBuilder {
    var maps: Maps

    ghost predicate Valid()
      reads this
    {
      Tree(maps)
    }

    /** The merge patch built so far. */
    ghost function Patch(): Fields
      reads this
      requires Valid()
    {
      Content(maps, 0)
    }

    constructor ()
      ensures Valid() && Patch() == map[]
    {
      maps := [map[]];
    }

    /** One iteration of the walk: the map in field `part` of map `current`, made if it is not there. */
    method Enter(current: nat, part: string, ghost rest: Path, ghost value: Json, ghost goal: Fields)
      returns (nested: nat)
      requires Aims(maps, current, rest, value, goal) && |rest| >= 2 && rest[0] == part
      modifies this
      ensures Aims(maps, nested, rest[1..], value, goal)
    {
      if part in maps[current] && maps[current][part].Ref? {
        assert IsRef(maps, current, part);
        AimDown(maps, current, rest, value, goal);
        return maps[current][part].at;
      }
      var child := if part in maps[current] && maps[current][part].j.Obj? then maps[current][part].j.fields else map[];
      assert child == Child(Content(maps, current), part);
      ghost var before := maps;
      nested := |maps|;
      maps := (maps + [Flat(child)])[current := maps[current][part := Ref(nested)]];
      AimStays(before, current, rest, value, goal, child, maps);
      AimDown(maps, current, rest, value, goal);
    }

    /** setNestedField. */
    method SetNestedField(path: Path, value: Json)
      requires Valid() && path != []
      modifies this
      ensures Valid() && Patch() == SetIn(old(Patch()), path, value)
    {
      var current: nat := 0;
      ghost var goal := SetIn(Patch(), path, value);
      for i := 0 to |path| - 1
        invariant Aims(maps, current, path[i..], value, goal)
      {
        assert path[i..][1..] == path[i + 1..];
        current := Enter(current, path[i], path[i..], value, goal);
      }
      var last := path[|path| - 1];
      assert path[|path| - 1..] == [last];
      ghost var before := maps;
      maps := maps[current := maps[current][last := Val(value)]];
      AimHit(before, current, last, value, goal, maps);
    }
  }

  lemma LastWriteRef(maps: Maps, cur: nat, last: string, value: Json, maps': Maps, i: nat, k: string)
    requires cur < |maps| && maps' == maps[cur := maps[cur][last := Val(value)]] && IsRef(maps', i, k)
    ensures IsRef(maps, i, k) && maps[i][k] == maps'[i][k] && (i == cur ==> k != last)
  {
  }

  lemma LastWriteIsTree(maps: Maps, cur: nat, last: string, value: Json, maps': Maps)
    requires Tree(maps) && cur < |maps| && maps' == maps[cur := maps[cur][last := Val(value)]]
    ensures Tree(maps')
  {
    forall i: nat, k | IsRef(maps', i, k) ensures i < maps'[i][k].at < |maps'| {
      LastWriteRef(maps, cur, last, value, maps', i, k);
    }
    forall i: nat, k, j: nat, l | IsRef(maps', i, k) && IsRef(maps', j, l) && maps'[i][k].at == maps'[j][l].at
      ensures i == j && k == l
    {
      LastWriteRef(maps, cur, last, value, maps', i, k);
      LastWriteRef(maps, cur, last, value, maps', j, l);
    }
  }

  lemma KeptField(maps: Maps, cur: nat, last: string, value: Json, maps': Maps, k: string)
    requires Tree(maps) && Tree(maps') && cur < |maps| && maps' == maps[cur := maps[cur][last := Val(value)]] &&
             k != last
    ensures k in Content(maps', cur) <==> k in Content(maps, cur)
    ensures k in Content(maps, cur) ==> Content(maps', cur)[k] == Content(maps, cur)[k]
  {
    FieldOf(maps, cur, k);
    FieldOf(maps', cur, k);
    if IsRef(maps, cur, k) {
      Written(maps, maps', maps[cur][k].at, cur, map[]);
      WithAbove(maps, maps[cur][k].at, cur, Content(maps', cur));
    }
  }

  lemma LastWrite(maps: Maps, cur: nat, last: string, value: Json, maps': Maps)
    requires Tree(maps) && cur < |maps| && maps' == maps[cur := maps[cur][last := Val(value)]]
    ensures Tree(maps') && Content(maps', cur) == Content(maps, cur)[last := value]
  {
    LastWriteIsTree(maps, cur, last, value, maps');
    FieldOf(maps', cur, last);
    var want, got := Content(maps, cur)[last := value], Content(maps', cur);
    forall k | k != last ensures (k in got <==> k in want) && (k in want ==> got[k] == want[k]) {
      KeptField(maps, cur, last, value, maps', k);
    }
    assert got.Keys == want.Keys;
  }

  // ---------------------------------------------------------------- the flags

  /** strings.Split(s, "."). */
  function SplitDots(s: string): (p: Path)
    ensures p != []
  {
    if s == "" then [""]
    else if s[0] == '.' then [""] + SplitDots(s[1..])
    else
      var rest := SplitDots(s[1..]);
      [[s[0]] + rest[0]] + rest[1..]
  }

  /** strings.SplitN(s, "=", 2), when it yields two parts. */
  function SplitPair(s: string): Option<(string, string)> {
    if s == "" then None
    else if s[0] == '=' then Some(("", s[1..]))
    else match SplitPair(s[1..])
      case None => None
      case Some((field, value)) => Some(([s[0]] + field, value))
  }

  /** The parts joined by dots again. */
  function JoinDots(p: Path): string
    requires p != []
  {
    if |p| == 1 then p[0] else p[0] + "." + JoinDots(p[1..])
  }

  /** The parts of a dotted path, joined, give it back. */
  lemma {:induction false} SplitDotsInverts(s: string)
    ensures JoinDots(SplitDots(s)) == s
  {
    if s != "" {
      SplitDotsInverts(s[1..]);
      var rest := SplitDots(s[1..]);
      if s[0] == '.' {
        assert SplitDots(s)[1..] == rest;
        assert JoinDots(SplitDots(s)) == "" + "." + JoinDots(rest);
      } else {
        JoinWithLetter(s[0], rest);
      }
    }
  }

  lemma JoinWithLetter(c: char, rest: Path)
    requires rest != []
    ensures JoinDots([[c] + rest[0]] + rest[1..]) == [c] + JoinDots(rest)
  {
    var p := [[c] + rest[0]] + rest[1..];
    assert p[1..] == rest[1..];
    if |rest| > 1 {
      assert [c] + rest[0] + "." + JoinDots(rest[1..]) == [c] + (rest[0] + "." + JoinDots(rest[1..]));
    }
  }

  /** And none of them has a dot. */
  lemma {:induction false} SplitDotsParts(s: string)
    ensures forall part :: part in SplitDots(s) ==> '.' !in part
  {
    if s != "" {
      SplitDotsParts(s[1..]);
      assert SplitDots(s[1..])[0] in SplitDots(s[1..]);
    }
  }

  /** A pair splits at its first '=', and only a flag without one has no split. */
  lemma {:induction false} SplitPairInverts(s: string)
    ensures SplitPair(s).Some? <==> '=' in s
    ensures SplitPair(s).Some? ==>
              s == SplitPair(s).value.0 + "=" + SplitPair(s).value.1 && '=' !in SplitPair(s).value.0
  {
    if s != "" {
      SplitPairInverts(s[1..]);
      assert s == [s[0]] + s[1..];
    }
  }

  /** A flag's value: JSON if it parses as JSON, otherwise the text itself. */
  function ValueOf(text: string, parse: string -> Option<Json>): Json {
    match parse(text)
    case Some(j) => j
    case None => Str(text)
  }

  predicate AllPairs(flags: seq<string>) {
    forall f :: f in flags ==> SplitPair(f).Some?
  }

  function PairOp(flag: string, parse: string -> Option<Json>): (o: Op)
    requires SplitPair(flag).Some?
    ensures o.path != []
  {
    Op(SplitDots(SplitPair(flag).value.0), ValueOf(SplitPair(flag).value.1, parse))
  }

  function PairOps(flags: seq<string>, parse: string -> Option<Json>): (ops: seq<Op>)
    requires AllPairs(flags)
    ensures |ops| == |flags| && Proper(ops)
  {
    seq(|flags|, i requires 0 <= i < |flags| => assert flags[i] in flags; PairOp(flags[i], parse))
  }

  function UnsetOps(fields: seq<string>): (ops: seq<Op>)
    ensures |ops| == |fields| && Proper(ops)
  {
    seq(|fields|, i requires 0 <= i < |fields| => Op(SplitDots(fields[i]), Null))
  }

  /** What the command line asks for, in the order it is carried out: sets, then unsets, then adds. */
  function FlagOps(sets: seq<string>, unsets: seq<string>, adds: seq<string>,
                   parse: string -> Option<Json>): (ops: seq<Op>)
    requires AllPairs(sets) && AllPairs(adds)
    ensures Proper(ops)
  {
    PairOps(sets, parse) + UnsetOps(unsets) + PairOps(adds, parse)
  }

  lemma OneMoreOp(start: Fields, ops: seq<Op>, o: Op)
    requires Proper(ops) && o.path != []
    ensures Proper(ops + [o]) && Compile(start, ops + [o]) == SetIn(Compile(start, ops), o.path, o.value)
  {
    FoldsCompose(start, ops, [o]);
    assert Compile(Compile(start, ops), [o]) == SetIn(Compile(start, ops), o.path, o.value);
  }

  /** One flag loop: every pair is set, unless one of them has no '='. */
  method SetPairs(b: PatchBuilder, flags: seq<string>, parse: string -> Option<Json>) returns (ok: bool)
    requires b.Valid()
    modifies b
    ensures b.Valid() && ok == AllPairs(flags)
    ensures ok ==> b.Patch() == Compile(old(b.Patch()), PairOps(flags, parse))
  {
    ghost var start := b.Patch();
    for i := 0 to |flags|
      invariant b.Valid() && AllPairs(flags[..i])
      invariant b.Patch() == Compile(start, PairOps(flags[..i], parse))
    {
      var pair := SplitPair(flags[i]);
      if pair.None? {
        return false;
      }
      b.SetNestedField(SplitDots(pair.value.0), ValueOf(pair.value.1, parse));
      assert flags[..i + 1] == flags[..i] + [flags[i]];
      assert AllPairs(flags[..i + 1]);
      assert PairOps(flags[..i + 1], parse) == PairOps(flags[..i], parse) + [PairOp(flags[i], parse)];
      OneMoreOp(start, PairOps(flags[..i], parse), PairOp(flags[i], parse));
    }
    assert flags[..|flags|] == flags;
    return true;
  }

  method UnsetFields(b: PatchBuilder, fields: seq<string>)
    requires b.Valid()
    modifies b
    ensures b.Valid() && b.Patch() == Compile(old(b.Patch()), UnsetOps(fields))
  {
    ghost var start := b.Patch();
    for i := 0 to |fields|
      invariant b.Valid() && b.Patch() == Compile(start, UnsetOps(fields[..i]))
    {
      b.SetNestedField(SplitDots(fields[i]), Null);
      ghost var o := Op(SplitDots(fields[i]), Null);
      assert UnsetOps(fields[..i + 1]) == UnsetOps(fields[..i]) + [o];
      OneMoreOp(start, UnsetOps(fields[..i]), o);
    }
    assert fields[..|fields|] == fields;
  }

  // ---------------------------------------------------------------- what each flag comes to

  lemma {:induction false} SplitPairOf(field: string, text: string)
    requires '=' !in field
    ensures SplitPair(field + "=" + text) == Some((field, text))
  {
    var s := field + "=" + text;
    if field == "" {
      assert s[0] == '=' && s[1..] == text;
    } else {
      assert field[0] in field && s[0] == field[0] && s[1..] == field[1..] + "=" + text;
      SplitPairOf(field[1..], text);
      assert [field[0]] + field[1..] == field;
    }
  }

  /** The flag sets `field` to `text`. */
  predicate Sets(flag: string, field: string, text: string) {
    flag == field + "=" + text && '=' !in field
  }

  /** None of the pairs from position `from` on writes above, at or below the field. */
  ghost predicate PairsApart(field: string, flags: seq<string>, from: nat) {
    forall j, g, t :: from <= j < |flags| && Sets(flags[j], g, t) ==> Apart(SplitDots(field), SplitDots(g))
  }

  ghost predicate FieldsApart(field: string, fields: seq<string>, from: nat) {
    forall j :: from <= j < |fields| ==> Apart(SplitDots(field), SplitDots(fields[j]))
  }

  /** The patch has this value at the field's path. */
  ghost predicate Carries(patch: Json, field: string, value: Json) {
    patch.Obj? && At(patch.fields, SplitDots(field)) == Some(value)
  }

  /** The value the text stands for: what it parses to, or the text itself. */
  ghost predicate StandsFor(text: string, parse: string -> Option<Json>, value: Json) {
    parse(text) == Some(value) || (parse(text).None? && value == Str(text))
  }

  lemma PairApart(field: string, flags: seq<string>, from: nat, j: nat)
    requires PairsApart(field, flags, from) && from <= j < |flags| && SplitPair(flags[j]).Some?
    ensures Apart(SplitDots(field), SplitDots(SplitPair(flags[j]).value.0))
  {
    SplitPairInverts(flags[j]);
    assert Sets(flags[j], SplitPair(flags[j]).value.0, SplitPair(flags[j]).value.1);
  }

  lemma SetIsCarried(sets: seq<string>, unsets: seq<string>, adds: seq<string>, parse: string -> Option<Json>,
                     i: nat, field: string, text: string, value: Json)
    requires AllPairs(sets) && AllPairs(adds)
    requires i < |sets| && Sets(sets[i], field, text) && StandsFor(text, parse, value)
    requires PairsApart(field, sets, i + 1) && FieldsApart(field, unsets, 0) && PairsApart(field, adds, 0)
    ensures Carries(Obj(Compile(map[], FlagOps(sets, unsets, adds, parse))), field, value)
  {
    var ops := FlagOps(sets, unsets, adds, parse);
    SplitPairOf(field, text);
    forall j | i < j < |ops| ensures Apart(ops[i].path, ops[j].path) {
      if j < |sets| {
        assert sets[j] in sets;
        PairApart(field, sets, i + 1, j);
      } else if j >= |sets| + |unsets| {
        assert adds[j - |sets| - |unsets|] in adds;
        PairApart(field, adds, 0, j - |sets| - |unsets|);
      }
    }
    FlagIsInPatch(ops, i);
  }

  lemma UnsetIsCarried(sets: seq<string>, unsets: seq<string>, adds: seq<string>, parse: string -> Option<Json>, i: nat)
    requires AllPairs(sets) && AllPairs(adds) && i < |unsets|
    requires FieldsApart(unsets[i], unsets, i + 1) && PairsApart(unsets[i], adds, 0)
    ensures Carries(Obj(Compile(map[], FlagOps(sets, unsets, adds, parse))), unsets[i], Null)
  {
    var ops, k := FlagOps(sets, unsets, adds, parse), |sets| + i;
    forall j | k < j < |ops| ensures Apart(ops[k].path, ops[j].path) {
      if j >= |sets| + |unsets| {
        assert adds[j - |sets| - |unsets|] in adds;
        PairApart(unsets[i], adds, 0, j - |sets| - |unsets|);
      }
    }
    FlagIsInPatch(ops, k);
  }

  lemma AddIsCarried(sets: seq<string>, unsets: seq<string>, adds: seq<string>, parse: string -> Option<Json>,
                     i: nat, field: string, text: string, value: Json)
    requires AllPairs(sets) && AllPairs(adds)
    requires i < |adds| && Sets(adds[i], field, text) && StandsFor(text, parse, value)
    requires PairsApart(field, adds, i + 1)
    ensures Carries(Obj(Compile(map[], FlagOps(sets, unsets, adds, parse))), field, value)
  {
    var ops, k := FlagOps(sets, unsets, adds, parse), |sets| + |unsets| + i;
    SplitPairOf(field, text);
    forall j | k < j < |ops| ensures Apart(ops[k].path, ops[j].path) {
      assert adds[j - |sets| - |unsets|] in adds;
      PairApart(field, adds, i + 1, j - |sets| - |unsets|);
    }
    FlagIsInPatch(ops, k);
  }

  /** The shorthand branch: the merge patch for the flags, or an error for a pair without '=' or any --remove. */
  method Shorthand(sets: seq<string>, unsets: seq<string>, adds: seq<string>, removes: seq<string>,
                   parse: string -> Option<Json>)
    returns (r: Result<Json>)
    ensures r.Ok? <==> AllPairs(sets) && AllPairs(adds) && removes == []
    ensures r.Ok? ==> r.value == Obj(Compile(map[], FlagOps(sets, unsets, adds, parse)))
    ensures r.Ok? ==> forall i: nat, field, text, value ::
              && i < |sets| && Sets(sets[i], field, text) && StandsFor(text, parse, value)
              && PairsApart(field, sets, i + 1) && FieldsApart(field, unsets, 0) && PairsApart(field, adds, 0) ==>
                Carries(r.value, field, value)
    ensures r.Ok? ==> forall i: nat ::
              i < |unsets| && FieldsApart(unsets[i], unsets, i + 1) && PairsApart(unsets[i], adds, 0) ==>
                Carries(r.value, unsets[i], Null)
    ensures r.Ok? ==> forall i: nat, field, text, value ::
              && i < |adds| && Sets(adds[i], field, text) && StandsFor(text, parse, value)
              && PairsApart(field, adds, i + 1) ==>
                Carries(r.value, field, value)
  {
    var b := new PatchBuilder();
    var ok := SetPairs(b, sets, parse);
    if !ok {
      return Err("invalid --set format");
    }
    UnsetFields(b, unsets);
    ok := SetPairs(b, adds, parse);
    if !ok {
      return Err("invalid --add format");
    }
    if removes != [] {
      return Err("--remove operations require --json-patch format");
    }
    FoldsCompose(map[], PairOps(sets, parse), UnsetOps(unsets));
    FoldsCompose(map[], PairOps(sets, parse) + UnsetOps(unsets), PairOps(adds, parse));
    ghost var patch := Obj(Compile(map[], FlagOps(sets, unsets, adds, parse)));
    forall i: nat, field, text, value |
        && i < |sets| && Sets(sets[i], field, text) && StandsFor(text, parse, value)
        && PairsApart(field, sets, i + 1) && FieldsApart(field, unsets, 0) && PairsApart(field, adds, 0)
      ensures Carries(patch, field, value)
    {
      SetIsCarried(sets, unsets, adds, parse, i, field, text, value);
    }
    forall i: nat | i < |unsets| && FieldsApart(unsets[i], unsets, i + 1) && PairsApart(unsets[i], adds, 0)
      ensures Carries(patch, unsets[i], Null)
    {
      UnsetIsCarried(sets, unsets, adds, parse, i);
    }
    forall i: nat, field, text, value |
        && i < |adds| && Sets(adds[i], field, text) && StandsFor(text, parse, value) && PairsApart(field, adds, i + 1)
      ensures Carries(patch, field, value)
    {
      AddIsCarried(sets, unsets, adds, parse, i, field, text, value);
    }
    return Ok(Obj(Content(b.maps, 0)));
  }
}
