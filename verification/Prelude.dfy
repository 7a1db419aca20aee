/** Result types shared by every component of the model. */
module Prelude {

  datatype Option<+T> = None | Some(value: T)

  /** The Go convention `(value, error)`: a value or an error message. */
  datatype Result<+T> = Ok(value: T) | Err(message: string)

  function Pow2(k: nat): (p: nat)
    ensures p >= 1
  {
    if k == 0 then 1 else 2 * Pow2(k - 1)
  }

  lemma {:induction false} Pow2Split(j: nat, k: nat)
    ensures Pow2(j + k) == Pow2(j) * Pow2(k)
  {
    if j > 0 {
      Pow2Split(j - 1, k);
    }
  }

  ghost function LongestName(names: set<string>): (n: nat)
    ensures forall x :: x in names ==> |x| <= n
  {
    if names == {} then 0
    else
      var x :| x in names;
      var n := LongestName(names - {x});
      assert forall y :: y in names ==> y == x || y in names - {x};
      if |x| > n then |x| else n
  }

  /** A name outside any finite set of names. */
  ghost function FreshName(names: set<string>): (s: string)
    ensures s !in names
  {
    seq(LongestName(names) + 1, _ => 'x')
  }

  /** The white space `strings.TrimSpace` removes. */
  predicate IsSpace(c: char) {
    '\t' <= c <= '\r' || c == ' ' || c == '\U{85}' || c == '\U{A0}' || c == '\U{1680}'
    || '\U{2000}' <= c <= '\U{200A}' || c == '\U{2028}' || c == '\U{2029}' || c == '\U{202F}'
    || c == '\U{205F}' || c == '\U{3000}'
  }

  function TrimSpace(s: string): string {
    if s == "" then ""
    else if IsSpace(s[0]) then TrimSpace(s[1..])
    else if IsSpace(s[|s| - 1]) then TrimSpace(s[..|s| - 1])
    else s
  }

  lemma {:induction false} TrimIsIdempotent(s: string)
    ensures TrimSpace(TrimSpace(s)) == TrimSpace(s)
  {
    if s != "" {
      if IsSpace(s[0]) {
        TrimIsIdempotent(s[1..]);
      } else if IsSpace(s[|s| - 1]) {
        TrimIsIdempotent(s[..|s| - 1]);
      }
    }
  }
}
