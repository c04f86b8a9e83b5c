/** Joining sequences of sequences. */
module Sequences {
  /** All of `parts`, one after the other. */
  function Concat<T>(parts: seq<seq<T>>): seq<T> {
    if parts == [] then [] else parts[0] + Concat(parts[1..])
  }

  /** The same, taken apart at the end. */
  function Flatten<T>(groups: seq<seq<T>>): seq<T> {
    if groups == [] then [] else Flatten(groups[..|groups| - 1]) + groups[|groups| - 1]
  }

  lemma {:induction false} FlattenCons<T>(groups: seq<seq<T>>)
    requires groups != []
    ensures Flatten(groups) == groups[0] + Flatten(groups[1..])
  {
    var n := |groups| - 1;
    if n == 0 {
      assert groups[..0] == [] && groups[1..] == [];
    } else {
      FlattenCons(groups[..n]);
      assert groups[..n][1..] == groups[1..][..n - 1];
      Regroup(groups[0], Flatten(groups[1..][..n - 1]), groups[n]);
    }
  }

  lemma {:induction false} FlattenIsConcat<T>(parts: seq<seq<T>>)
    ensures Flatten(parts) == Concat(parts)
  {
    if parts != [] {
      FlattenCons(parts);
      FlattenIsConcat(parts[1..]);
    }
  }

  lemma Regroup<T>(a: seq<T>, b: seq<T>, c: seq<T>)
    ensures (a + b) + c == a + (b + c)
  {}

  /** The elements that meet `p`, in order. */
  function Filter<T>(s: seq<T>, p: T -> bool): seq<T> {
    if s == [] then [] else (if p(s[0]) then [s[0]] else []) + Filter(s[1..], p)
  }

  /** The elements that are also in `those`, in order. */
  function Restrict<T(==)>(s: seq<T>, those: seq<T>): seq<T> {
    if s == [] then [] else (if s[0] in those then [s[0]] else []) + Restrict(s[1..], those)
  }

  lemma {:induction false} FilterAppend<T>(a: seq<T>, b: seq<T>, p: T -> bool)
    ensures Filter(a + b, p) == Filter(a, p) + Filter(b, p)
  {
    if a == [] {
      assert a + b == b && [] + Filter(b, p) == Filter(b, p);
    } else {
      assert (a + b)[0] == a[0] && (a + b)[1..] == a[1..] + b;
      FilterAppend(a[1..], b, p);
      Regroup(if p(a[0]) then [a[0]] else [], Filter(a[1..], p), Filter(b, p));
    }
  }
}
