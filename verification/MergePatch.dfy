/** The CLI's shorthand patches (cmd/client/main.go): dotted-path `--set`, `--unset` and `--add` flags are
    compiled by setNestedField into one JSON Merge Patch, whose meaning is section 2 of RFC 7386. */
module MergePatch {
  import opened Prelude

  /** `Scalar` stands for every value that is neither null, a string nor an object; arrays are among them,
      since a merge patch replaces them whole. */
  datatype Json = Null | Str(s: string) | Scalar(text: string) | Obj(fields: map<string, Json>)

  type Fields = map<string, Json>
  type Path = seq<string>

  function Child(f: Fields, key: string): Fields {
    if key in f && f[key].Obj? then f[key].fields else map[]
  }

  /** MergePatch(Target, Patch) of RFC 7386; `None` is an undefined target. */
  function Merge(target: Option<Json>, patch: Json): Json
    decreases patch
  {
    if !patch.Obj? then patch
    else
      var base := if target.Some? && target.value.Obj? then target.value.fields else map[];
      Obj(map k | k in base.Keys + patch.fields.Keys && (k in patch.fields ==> !patch.fields[k].Null?) ::
            if k in patch.fields then Merge(if k in base then Some(base[k]) else None, patch.fields[k]) else base[k])
  }

  /** One flag: give the field at `path` this value; null removes the field. */
  datatype Op = Op(path: Path, value: Json)

  predicate Proper(ops: seq<Op>) {
    forall o :: o in ops ==> o.path != []
  }

  /** setNestedField on the patch being built. */
  function SetIn(f: Fields, path: Path, value: Json): Fields
    requires path != []
    decreases |path|
  {
    if |path| == 1 then f[path[0] := value]
    else f[path[0] := Obj(SetIn(Child(f, path[0]), path[1..], value))]
  }

  /** What a flag asks for, performed on the document itself: step down, making objects where there are none,
      then put the value in place of what was there or remove the field. */
  function Perform(f: Fields, path: Path, value: Json): Fields
    requires path != []
    decreases |path|
  {
    if |path| == 1 then (if value.Null? then f - {path[0]} else f[path[0] := value])
    else f[path[0] := Obj(Perform(Child(f, path[0]), path[1..], value))]
  }

  function Compile(f: Fields, ops: seq<Op>): Fields
    requires Proper(ops)
    decreases |ops|
  {
    if ops == [] then f else Compile(SetIn(f, ops[0].path, ops[0].value), ops[1..])
  }

  function PerformAll(f: Fields, ops: seq<Op>): Fields
    requires Proper(ops)
    decreases |ops|
  {
    if ops == [] then f else PerformAll(Perform(f, ops[0].path, ops[0].value), ops[1..])
  }

  /** A later flag writes at `path` or above it. */
  ghost predicate Overwritten(path: Path, later: seq<Op>) {
    exists o :: o in later && o.path <= path
  }

  /** A later flag writes strictly below `path`. */
  ghost predicate Extended(path: Path, later: seq<Op>) {
    exists o :: o in later && path < o.path
  }

  /** What a user can check on the command line: each flag is overwritten by a later one at or above its path,
      or gives a value that is not an object and is not extended by a later flag. */
  ghost predicate Faithful(ops: seq<Op>) {
    ops != [] ==>
      && Faithful(ops[1..])
      && (Overwritten(ops[0].path, ops[1..]) || (!ops[0].value.Obj? && !Extended(ops[0].path, ops[1..])))
  }

  // ---------------------------------------------------------------- one key at a time

  /** The deep flags below `key`, with the key dropped. */
  function Under(ops: seq<Op>, key: string): seq<Op> {
    if ops == [] then []
    else
      var rest := Under(ops[1..], key);
      if |ops[0].path| >= 2 && ops[0].path[0] == key then [Op(ops[0].path[1..], ops[0].value)] + rest else rest
  }

  function LastAt(ops: seq<Op>, key: string): Option<Op>
    requires Proper(ops)
  {
    if ops == [] then None
    else if LastAt(ops[1..], key).Some? then LastAt(ops[1..], key)
    else if (assert ops[0] in ops; ops[0].path[0] == key) then Some(ops[0]) else None
  }

  ghost predicate NoDirect(ops: seq<Op>, key: string) {
    forall o :: o in ops ==> o.path != [key]
  }

  lemma {:induction false} UnderHas(ops: seq<Op>, key: string, o: Op)
    requires o in ops && |o.path| >= 2 && o.path[0] == key
    ensures Op(o.path[1..], o.value) in Under(ops, key)
  {
    if o != ops[0] {
      UnderHas(ops[1..], key, o);
    }
  }

  lemma {:induction false} UnderComesFrom(ops: seq<Op>, key: string, t: Op)
    requires t in Under(ops, key)
    ensures Op([key] + t.path, t.value) in ops && t.path != []
  {
    if t in Under(ops[1..], key) {
      UnderComesFrom(ops[1..], key, t);
    } else {
      assert ops[0].path == [key] + ops[0].path[1..];
    }
  }

  lemma {:induction false} UnderIsProper(ops: seq<Op>, key: string)
    ensures Proper(Under(ops, key))
  {
    if ops != [] {
      UnderIsProper(ops[1..], key);
    }
  }

  ghost function Weight(ops: seq<Op>): nat {
    if ops == [] then 0 else |ops[0].path| + Weight(ops[1..])
  }

  lemma {:induction false} UnderIsLighter(ops: seq<Op>, key: string)
    ensures Weight(Under(ops, key)) + |Under(ops, key)| <= Weight(ops)
  {
    if ops != [] {
      UnderIsLighter(ops[1..], key);
    }
  }

  lemma ProperTail(ops: seq<Op>)
    requires Proper(ops) && ops != []
    ensures Proper(ops[1..]) && ops[0].path != []
  {
    assert ops[0] in ops;
  }

  /** The two objects hold the same at `key`. */
  ghost predicate SameAt(f: Fields, g: Fields, key: string) {
    (key in f <==> key in g) && (key in f ==> f[key] == g[key])
  }

  lemma UnderUnfolds(ops: seq<Op>, key: string)
    requires Proper(ops) && NoDirect(ops, key) && ops != []
    ensures Proper(ops[1..]) && NoDirect(ops[1..], key) && ops[0].path != []
    ensures Proper(Under(ops, key)) && Proper(Under(ops[1..], key))
    ensures ops[0].path[0] != key ==> Under(ops, key) == Under(ops[1..], key)
    ensures ops[0].path[0] == key ==>
              && |ops[0].path| >= 2 && Under(ops, key) != []
              && Under(ops, key)[0] == Op(ops[0].path[1..], ops[0].value)
              && Under(ops, key)[1..] == Under(ops[1..], key)
  {
    assert ops[0] in ops;
    UnderIsProper(ops, key);
    UnderIsProper(ops[1..], key);
  }

  /** With no direct write at `key`, compiling at `key` is compiling the tails below it. */
  lemma {:induction false} CompileBelowKey(f: Fields, ops: seq<Op>, key: string)
    requires Proper(ops) && NoDirect(ops, key)
    ensures Proper(Under(ops, key))
    ensures if Under(ops, key) == [] then SameAt(Compile(f, ops), f, key)
            else key in Compile(f, ops) && Compile(f, ops)[key] == Obj(Compile(Child(f, key), Under(ops, key)))
    decreases |ops|
  {
    if ops != [] {
      UnderUnfolds(ops, key);
      var c := SetIn(f, ops[0].path, ops[0].value);
      CompileBelowKey(c, ops[1..], key);
      assert ops[0].path[0] != key ==> Child(c, key) == Child(f, key);
    }
  }

  /** And so for performing the flags on a document. */
  lemma {:induction false} PerformBelowKey(f: Fields, ops: seq<Op>, key: string)
    requires Proper(ops) && NoDirect(ops, key)
    ensures Proper(Under(ops, key))
    ensures if Under(ops, key) == [] then SameAt(PerformAll(f, ops), f, key)
            else key in PerformAll(f, ops)
                 && PerformAll(f, ops)[key] == Obj(PerformAll(Child(f, key), Under(ops, key)))
    decreases |ops|
  {
    if ops != [] {
      UnderUnfolds(ops, key);
      var c := Perform(f, ops[0].path, ops[0].value);
      PerformBelowKey(c, ops[1..], key);
      assert ops[0].path[0] != key ==> Child(c, key) == Child(f, key);
    }
  }

  lemma {:induction false} LastAtNone(ops: seq<Op>, key: string)
    requires Proper(ops) && LastAt(ops, key).None?
    ensures NoDirect(ops, key) && Under(ops, key) == []
    ensures forall o :: o in ops ==> o.path[0] != key
  {
    if ops != [] {
      ProperTail(ops);
      LastAtNone(ops[1..], key);
    }
  }

  /** When the last flag at `key` writes it directly, that value is what is left there. */
  lemma {:induction false} CompileEndsDirect(f: Fields, ops: seq<Op>, key: string)
    requires Proper(ops) && LastAt(ops, key).Some? && |LastAt(ops, key).value.path| == 1
    ensures key in Compile(f, ops) && Compile(f, ops)[key] == LastAt(ops, key).value.value
    decreases |ops|
  {
    ProperTail(ops);
    var c := SetIn(f, ops[0].path, ops[0].value);
    if LastAt(ops[1..], key).Some? {
      CompileEndsDirect(c, ops[1..], key);
    } else {
      LastAtNone(ops[1..], key);
      CompileBelowKey(c, ops[1..], key);
    }
  }

  lemma {:induction false} PerformEndsDirect(f: Fields, ops: seq<Op>, key: string)
    requires Proper(ops) && LastAt(ops, key).Some? && |LastAt(ops, key).value.path| == 1
    ensures var v := LastAt(ops, key).value.value;
            if v.Null? then key !in PerformAll(f, ops) else key in PerformAll(f, ops) && PerformAll(f, ops)[key] == v
    decreases |ops|
  {
    ProperTail(ops);
    var c := Perform(f, ops[0].path, ops[0].value);
    if LastAt(ops[1..], key).Some? {
      PerformEndsDirect(c, ops[1..], key);
    } else {
      LastAtNone(ops[1..], key);
      PerformBelowKey(c, ops[1..], key);
    }
  }

  lemma {:induction false} LastAtIsMember(ops: seq<Op>, key: string)
    requires Proper(ops) && LastAt(ops, key).Some?
    ensures LastAt(ops, key).value in ops && LastAt(ops, key).value.path[0] == key
  {
    ProperTail(ops);
    if LastAt(ops[1..], key).Some? {
      LastAtIsMember(ops[1..], key);
    }
  }

  lemma {:induction false} FaithfulEndsDirect(ops: seq<Op>, key: string)
    requires Proper(ops) && Faithful(ops)
    requires LastAt(ops, key).Some? && |LastAt(ops, key).value.path| == 1
    ensures !LastAt(ops, key).value.value.Obj?
  {
    ProperTail(ops);
    if LastAt(ops[1..], key).Some? {
      FaithfulEndsDirect(ops[1..], key);
    } else {
      LastAtNone(ops[1..], key);
      assert forall o :: o in ops[1..] && o.path <= ops[0].path ==> o.path[0] == key;
    }
  }

  lemma {:induction false} FaithfulEndsDeep(ops: seq<Op>, key: string)
    requires Proper(ops) && Faithful(ops)
    requires LastAt(ops, key).Some? && |LastAt(ops, key).value.path| >= 2
    ensures NoDirect(ops, key)
  {
    ProperTail(ops);
    if LastAt(ops[1..], key).Some? {
      FaithfulEndsDeep(ops[1..], key);
      LastAtIsMember(ops[1..], key);
      assert [key] < LastAt(ops[1..], key).value.path;
      assert Extended([key], ops[1..]);
      assert forall r :: r in ops[1..] && r.path <= [key] ==> r.path == [key];
    } else {
      LastAtNone(ops[1..], key);
    }
  }

  lemma OverwrittenUnder(path: Path, later: seq<Op>, key: string)
    requires Proper(later) && NoDirect(later, key) && |path| >= 2 && path[0] == key
    requires Overwritten(path, later)
    ensures Overwritten(path[1..], Under(later, key))
  {
    var o :| o in later && o.path <= path;
    assert o.path != [key] && o.path[0] == key;
    UnderHas(later, key, o);
    var t := Op(o.path[1..], o.value);
    assert t in Under(later, key) && t.path <= path[1..];
  }

  lemma ExtendedUnder(path: Path, later: seq<Op>, key: string)
    requires |path| >= 2 && path[0] == key && Extended(path[1..], Under(later, key))
    ensures Extended(path, later)
  {
    var t :| t in Under(later, key) && path[1..] < t.path;
    UnderComesFrom(later, key, t);
    var o := Op([key] + t.path, t.value);
    assert path == [key] + path[1..];
    assert o in later && path < o.path;
  }

  lemma {:induction false} FaithfulUnder(ops: seq<Op>, key: string)
    requires Proper(ops) && Faithful(ops) && NoDirect(ops, key)
    ensures Faithful(Under(ops, key))
  {
    if ops != [] {
      ProperTail(ops);
      FaithfulUnder(ops[1..], key);
      var o := ops[0];
      assert o in ops;
      if o.path[0] == key {
        assert Under(ops, key)[1..] == Under(ops[1..], key);
        if Overwritten(o.path, ops[1..]) {
          OverwrittenUnder(o.path, ops[1..], key);
        } else if Extended(o.path[1..], Under(ops[1..], key)) {
          ExtendedUnder(o.path, ops[1..], key);
        }
      }
    }
  }

  // ---------------------------------------------------------------- faithful flags mean what they say

  lemma {:induction false} CompileTouches(f: Fields, ops: seq<Op>, key: string)
    requires Proper(ops)
    ensures key in Compile(f, ops) <==> key in f || LastAt(ops, key).Some?
    decreases |ops|
  {
    if ops != [] {
      ProperTail(ops);
      CompileTouches(SetIn(f, ops[0].path, ops[0].value), ops[1..], key);
    }
  }

  lemma {:induction false} FaithfulAtKey(doc: Fields, ops: seq<Op>, key: string)
    requires Proper(ops) && Faithful(ops)
    ensures SameAt(Merge(Some(Obj(doc)), Obj(Compile(map[], ops))).fields, PerformAll(doc, ops), key)
    decreases Weight(ops), 0
  {
    CompileTouches(map[], ops, key);
    if LastAt(ops, key).None? {
      LastAtNone(ops, key);
      PerformBelowKey(doc, ops, key);
    } else if |LastAt(ops, key).value.path| == 1 {
      CompileEndsDirect(map[], ops, key);
      PerformEndsDirect(doc, ops, key);
      FaithfulEndsDirect(ops, key);
    } else {
      LastAtIsMember(ops, key);
      UnderHas(ops, key, LastAt(ops, key).value);
      FaithfulEndsDeep(ops, key);
      CompileBelowKey(map[], ops, key);
      PerformBelowKey(doc, ops, key);
      FaithfulUnder(ops, key);
      UnderIsLighter(ops, key);
      FaithfulMeaning(Child(doc, key), Under(ops, key));
    }
  }

  lemma {:induction false} FaithfulMeaning(doc: Fields, ops: seq<Op>)
    requires Proper(ops) && Faithful(ops)
    ensures Merge(Some(Obj(doc)), Obj(Compile(map[], ops))) == Obj(PerformAll(doc, ops))
    decreases Weight(ops), 1
  {
    var merged := Merge(Some(Obj(doc)), Obj(Compile(map[], ops))).fields;
    forall key ensures SameAt(merged, PerformAll(doc, ops), key) {
      FaithfulAtKey(doc, ops, key);
    }
    assert merged == PerformAll(doc, ops) by {
      assert forall key :: key in merged ==> SameAt(merged, PerformAll(doc, ops), key);
      assert forall key :: key in PerformAll(doc, ops) ==> SameAt(merged, PerformAll(doc, ops), key);
    }
  }

  // ---------------------------------------------------------------- unfaithful flags do not

  /** The value at `path`, reached through objects. */
  function At(f: Fields, path: Path): Option<Json>
    requires path != []
    decreases |path|
  {
    if |path| == 1 then (if path[0] in f then Some(f[path[0]]) else None)
    else At(Child(f, path[0]), path[1..])
  }

  lemma {:induction false} AtEmpty(path: Path)
    requires path != []
    ensures At(map[], path).None?
    decreases |path|
  {
    if |path| >= 2 {
      AtEmpty(path[1..]);
    }
  }

  ghost predicate Apart(p: Path, q: Path) {
    !(p <= q) && !(q <= p)
  }

  /** The object `v`, if it is one, has no field `z`. */
  ghost predicate Lacks(v: Option<Json>, z: string) {
    v.Some? && v.value.Obj? ==> z !in v.value.fields
  }

  lemma ApartTails(p: Path, q: Path)
    requires Apart(p, q) && p != [] && q != [] && p[0] == q[0]
    ensures |p| >= 2 && |q| >= 2 && Apart(p[1..], q[1..])
  {
    assert p == [p[0]] + p[1..] && q == [q[0]] + q[1..];
  }

  lemma {:induction false} AtSet(f: Fields, p: Path, v: Json)
    requires p != []
    ensures At(SetIn(f, p, v), p) == Some(v)
    ensures At(Perform(f, p, v), p) == if v.Null? then None else Some(v)
    decreases |p|
  {
    if |p| >= 2 {
      AtSet(Child(f, p[0]), p[1..], v);
    }
  }

  lemma {:induction false} AtApart(f: Fields, p: Path, q: Path, v: Json)
    requires p != [] && q != [] && Apart(p, q)
    ensures At(SetIn(f, q, v), p) == At(f, p) && At(Perform(f, q, v), p) == At(f, p)
    decreases |p|
  {
    if p[0] == q[0] {
      ApartTails(p, q);
      AtApart(Child(f, p[0]), p[1..], q[1..], v);
    } else {
      assert Child(SetIn(f, q, v), p[0]) == Child(f, p[0]) == Child(Perform(f, q, v), p[0]);
    }
  }

  /** Setting below `p` makes or keeps an object at `p`, and adds to it only the next path element. */
  lemma {:induction false} AtBelow(f: Fields, p: Path, q: Path, v: Json, z: string)
    requires p != [] && p < q && z != q[|p|] && Lacks(At(f, p), z)
    ensures At(SetIn(f, q, v), p).Some? && At(SetIn(f, q, v), p).value.Obj? && Lacks(At(SetIn(f, q, v), p), z)
    decreases |p|
  {
    if |p| >= 2 {
      AtBelow(Child(f, p[0]), p[1..], q[1..], v, z);
    }
  }

  lemma {:induction false} AtSnoc(f: Fields, p: Path, z: string)
    requires p != []
    ensures At(f, p + [z]) ==
            (if At(f, p).Some? && At(f, p).value.Obj? && z in At(f, p).value.fields then Some(At(f, p).value.fields[z])
             else None)
    decreases |p|
  {
    var q := p + [z];
    if |p| == 1 {
      assert q[1..] == [z];
    } else {
      assert q[1..] == p[1..] + [z];
      AtSnoc(Child(f, p[0]), p[1..], z);
    }
  }

  /** A target that is no object counts as an empty one. */
  lemma MergeIntoNonObject(target: Option<Json>, patch: Json)
    requires patch.Obj?
    ensures Merge(target, patch) ==
            Merge(Some(Obj(if target.Some? && target.value.Obj? then target.value.fields else map[])), patch)
  {
  }

  lemma {:induction false} AtMerge(doc: Fields, patch: Fields, p: Path)
    requires p != [] && At(patch, p).Some? && !At(patch, p).value.Null?
    ensures At(Merge(Some(Obj(doc)), Obj(patch)).fields, p) == Some(Merge(At(doc, p), At(patch, p).value))
    decreases |p|
  {
    var merged := Merge(Some(Obj(doc)), Obj(patch)).fields;
    if |p| >= 2 {
      AtEmpty(p[1..]);
      assert p[0] in patch && patch[p[0]].Obj?;
      var child := if p[0] in doc then Some(doc[p[0]]) else None;
      var inner := Merge(Some(Obj(Child(doc, p[0]))), patch[p[0]]);
      MergeIntoNonObject(child, patch[p[0]]);
      assert merged[p[0]] == Merge(child, patch[p[0]]) == inner;
      AtMerge(Child(doc, p[0]), patch[p[0]].fields, p[1..]);
      assert Child(merged, p[0]) == inner.fields;
    }
  }

  /** Once the patch holds something at `p`, flags that do not write at or above `p` leave it there;
      it is an object at the end if it was one or some flag goes below it. */
  lemma {:induction false} PatchStaysOpen(f: Fields, post: seq<Op>, p: Path, z: string)
    requires Proper(post) && p != [] && At(f, p).Some? && Lacks(At(f, p), z)
    requires forall o :: o in post ==> !(o.path <= p) && z !in o.path
    ensures At(Compile(f, post), p).Some? && Lacks(At(Compile(f, post), p), z)
    ensures At(f, p).value.Obj? || Extended(p, post) ==> At(Compile(f, post), p).value.Obj?
    decreases |post|
  {
    if post != [] {
      ProperTail(post);
      var o := post[0];
      assert o in post;
      if p < o.path {
        assert o.path[|p|] in o.path;
        AtBelow(f, p, o.path, o.value, z);
      } else {
        AtApart(f, p, o.path, o.value);
      }
      assert forall r :: r in post[1..] ==> r in post;
      PatchStaysOpen(SetIn(f, o.path, o.value), post[1..], p, z);
      assert Extended(p, post) ==> p < o.path || Extended(p, post[1..]);
    }
  }

  lemma {:induction false} AbsentStaysAbsent(f: Fields, post: seq<Op>, q: Path)
    requires Proper(post) && q != [] && forall o :: o in post ==> Apart(q, o.path)
    ensures At(PerformAll(f, post), q) == At(f, q)
    decreases |post|
  {
    if post != [] {
      ProperTail(post);
      assert post[0] in post;
      AtApart(f, q, post[0].path, post[0].value);
      AbsentStaysAbsent(Perform(f, post[0].path, post[0].value), post[1..], q);
    }
  }

  lemma {:induction false} FoldsCompose(f: Fields, first: seq<Op>, second: seq<Op>)
    requires Proper(first + second)
    ensures Proper(first) && Proper(second)
    ensures Compile(f, first + second) == Compile(Compile(f, first), second)
    ensures PerformAll(f, first + second) == PerformAll(PerformAll(f, first), second)
    decreases |first|
  {
    assert forall o :: o in first ==> o in first + second;
    assert forall o :: o in second ==> o in first + second;
    if first == [] {
      assert first + second == second;
    } else {
      ProperTail(first);
      assert (first + second)[0] == first[0] && (first + second)[1..] == first[1..] + second;
      ProperTail(first + second);
      FoldsCompose(SetIn(f, first[0].path, first[0].value), first[1..], second);
      FoldsCompose(Perform(f, first[0].path, first[0].value), first[1..], second);
    }
  }

  /** A flag that breaks the rule, with what comes before and after it. */
  lemma {:induction false} Offender(ops: seq<Op>) returns (pre: seq<Op>, o: Op, post: seq<Op>)
    requires !Faithful(ops)
    ensures ops == pre + [o] + post
    ensures !Overwritten(o.path, post) && (o.value.Obj? || Extended(o.path, post))
  {
    if Faithful(ops[1..]) {
      pre, o, post := [], ops[0], ops[1..];
    } else {
      pre, o, post := Offender(ops[1..]);
      pre := [ops[0]] + pre;
    }
  }

  ghost function NamesIn(ops: seq<Op>): (names: set<string>)
    ensures forall o, x :: o in ops && x in o.path ==> x in names
  {
    if ops == [] then {}
    else (set x | x in ops[0].path) + NamesIn(ops[1..])
  }

  /** A document on which the compiled patch keeps a field that performing the flags drops. */
  lemma Witness(ops: seq<Op>) returns (doc: Fields)
    requires Proper(ops) && !Faithful(ops)
    ensures Merge(Some(Obj(doc)), Obj(Compile(map[], ops))) != Obj(PerformAll(doc, ops))
  {
    var pre, o, post := Offender(ops);
    assert o in ops;
    var z := FreshName(NamesIn(post) + (if o.value.Obj? then o.value.fields.Keys else {}));
    var p, q := o.path, o.path + [z];
    doc := SetIn(map[], p, Obj(map[z := Str("")]));
    AtSet(map[], p, Obj(map[z := Str("")]));
    FoldsCompose(map[], pre + [o], post);
    FoldsCompose(doc, pre + [o], post);
    FoldsCompose(map[], pre, [o]);
    FoldsCompose(doc, pre, [o]);
    KeptByPatch(doc, Compile(map[], pre), o, post, z);
    DroppedByFlags(PerformAll(doc, pre), o, post, z);
    assert Compile(Compile(map[], pre), [o]) == SetIn(Compile(map[], pre), p, o.value);
    assert PerformAll(PerformAll(doc, pre), [o]) == Perform(PerformAll(doc, pre), p, o.value);
  }

  lemma KeptByPatch(doc: Fields, f: Fields, o: Op, post: seq<Op>, z: string)
    requires Proper(post) && o.path != [] && At(doc, o.path) == Some(Obj(map[z := Str("")]))
    requires !Overwritten(o.path, post) && (o.value.Obj? || Extended(o.path, post))
    requires (forall r :: r in post ==> z !in r.path) && (o.value.Obj? ==> z !in o.value.fields)
    ensures At(Merge(Some(Obj(doc)), Obj(Compile(SetIn(f, o.path, o.value), post))).fields, o.path + [z]).Some?
  {
    AtSet(f, o.path, o.value);
    var patch := Compile(SetIn(f, o.path, o.value), post);
    PatchStaysOpen(SetIn(f, o.path, o.value), post, o.path, z);
    AtMerge(doc, patch, o.path);
    AtSnoc(Merge(Some(Obj(doc)), Obj(patch)).fields, o.path, z);
  }

  lemma PrefixMember(q: Path, r: Path, i: nat)
    requires i < |q|
    ensures q <= r ==> q[i] in r
  {
    if q <= r {
      assert r[i] == q[i];
    }
  }

  lemma DroppedByFlags(f: Fields, o: Op, post: seq<Op>, z: string)
    requires Proper(post) && o.path != [] && !Overwritten(o.path, post)
    requires (forall r :: r in post ==> z !in r.path) && (o.value.Obj? ==> z !in o.value.fields)
    ensures At(PerformAll(Perform(f, o.path, o.value), post), o.path + [z]).None?
  {
    var p, q := o.path, o.path + [z];
    AtSet(f, p, o.value);
    AtSnoc(Perform(f, p, o.value), p, z);
    forall r | r in post ensures Apart(q, r.path) {
      assert q[|p|] == z;
      PrefixMember(q, r.path, |p|);
      assert r.path <= q && |r.path| <= |p| ==> r.path <= p;
    }
    AbsentStaysAbsent(Perform(f, p, o.value), post, q);
  }

  /** For every list of flags with any JSON values: applying the compiled patch to a document by RFC 7386 equals
      performing the flags one by one, on all documents, if and only if the flags are faithful. */
  lemma CompiledPatchMeansItsFlags(ops: seq<Op>)
    requires Proper(ops)
    ensures (forall doc: Fields :: Merge(Some(Obj(doc)), Obj(Compile(map[], ops))) == Obj(PerformAll(doc, ops)))
            <==> Faithful(ops)
  {
    if Faithful(ops) {
      forall doc: Fields ensures Merge(Some(Obj(doc)), Obj(Compile(map[], ops))) == Obj(PerformAll(doc, ops)) {
        FaithfulMeaning(doc, ops);
      }
    } else {
      var doc := Witness(ops);
    }
  }

  // ---------------------------------------------------------------- what the patch has at a flag's path

  lemma {:induction false} ApartFlagsKeep(f: Fields, ops: seq<Op>, p: Path)
    requires Proper(ops) && p != [] && forall o :: o in ops ==> Apart(p, o.path)
    ensures At(Compile(f, ops), p) == At(f, p)
    decreases |ops|
  {
    if ops != [] {
      assert ops[0] in ops;
      ProperTail(ops);
      AtApart(f, p, ops[0].path, ops[0].value);
      ApartFlagsKeep(SetIn(f, ops[0].path, ops[0].value), ops[1..], p);
    }
  }

  /** The compiled patch has the flag's value at its path. */
  ghost predicate InPatch(ops: seq<Op>, o: Op) {
    Proper(ops) && o.path != [] && At(Compile(map[], ops), o.path) == Some(o.value)
  }

  lemma FlagThenApart(first: seq<Op>, o: Op, later: seq<Op>)
    requires Proper(first) && Proper([o] + later) && o.path != [] && forall x :: x in later ==> Apart(o.path, x.path)
    ensures InPatch(first + ([o] + later), o)
  {
    var f := Compile(map[], first);
    assert ([o] + later)[0] == o && ([o] + later)[1..] == later;
    ProperTail([o] + later);
    FoldsCompose(map[], first, [o] + later);
    AtSet(f, o.path, o.value);
    ApartFlagsKeep(SetIn(f, o.path, o.value), later, o.path);
  }

  /** A flag's value is in the patch at its path unless a later flag writes above, at or below it. */
  lemma FlagIsInPatch(ops: seq<Op>, i: nat)
    requires Proper(ops) && i < |ops| && forall j :: i < j < |ops| ==> Apart(ops[i].path, ops[j].path)
    ensures InPatch(ops, ops[i])
  {
    var first, o, later := ops[..i], ops[i], ops[i + 1..];
    assert ops == first + ([o] + later) && o in ops;
    forall x | x in later ensures Apart(o.path, x.path) {
      var k :| 0 <= k < |later| && later[k] == x;
      assert ops[i + 1 + k] == x;
    }
    assert Proper([o] + later) by {
      assert forall x :: x in [o] + later ==> x in ops;
    }
    FlagThenApart(first, o, later);
  }

  // ---------------------------------------------------------------- when an unset only removes

  /** Plain removal: the member at the path goes if it is there, and nothing else happens. */
  function Removed(f: Fields, path: Path): Fields
    requires path != []
    decreases |path|
  {
    if |path| == 1 then f - {path[0]}
    else if path[0] in f && f[path[0]].Obj? then f[path[0] := Obj(Removed(f[path[0]].fields, path[1..]))]
    else f
  }

  /** Every strict prefix of the path is an object of the document. */
  predicate HasParents(f: Fields, path: Path)
    requires path != []
    decreases |path|
  {
    |path| == 1 || (path[0] in f && f[path[0]].Obj? && HasParents(f[path[0]].fields, path[1..]))
  }

  lemma {:induction false} PerformedUnset(f: Fields, path: Path)
    requires path != []
    ensures Perform(f, path, Null) == Removed(f, path) <==> HasParents(f, path)
    decreases |path|
  {
    if |path| >= 2 {
      var key := path[0];
      assert Perform(f, path, Null)[key] == Obj(Perform(Child(f, key), path[1..], Null));
      if key in f && f[key].Obj? {
        PerformedUnset(f[key].fields, path[1..]);
        assert Removed(f, path)[key] == Obj(Removed(f[key].fields, path[1..]));
      }
    }
  }

  /** `--unset` only removes its field from a document if and only if the document has objects all the way down to it;
      otherwise it makes them, in place of whatever was there. */
  lemma UnsetOnlyRemovesExactly(doc: Fields, path: Path)
    requires path != []
    ensures Merge(Some(Obj(doc)), Obj(SetIn(map[], path, Null))) == Obj(Removed(doc, path)) <==> HasParents(doc, path)
  {
    var ops := [Op(path, Null)];
    assert ops[1..] == [] && Faithful([]);
    FaithfulMeaning(doc, ops);
    PerformedUnset(doc, path);
  }

  /** Such a document: the field's parent is a number, and becomes an empty object. */
  lemma UnsetReplacesScalar(key: string, field: string)
    ensures var doc := map[key := Scalar("5")];
            Merge(Some(Obj(doc)), Obj(SetIn(map[], [key, field], Null))) == Obj(map[key := Obj(map[])])
  {
    var ops := [Op([key, field], Null)];
    assert ops[1..] == [] && Faithful([]);
    FaithfulMeaning(map[key := Scalar("5")], ops);
    assert Perform(map[], [field], Null) == map[];
  }
}
