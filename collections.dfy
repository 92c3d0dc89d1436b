/** Generic sequence helpers: filtering (a list comprehension with an `if`),
    mapping and flattening, with the facts the report model needs about them. */
module Collections {

  /** The elements of `s` that satisfy `keep`, in their original order.
      Defined from the back, so that a loop over `s` extends it one element
      at a time. */
  function Filter<T>(keep: T -> bool, s: seq<T>): (r: seq<T>)
    ensures |r| <= |s|
    decreases |s|
  {
    if s == [] then []
    else Filter(keep, s[..|s| - 1]) + (if keep(s[|s| - 1]) then [s[|s| - 1]] else [])
  }

  /** `f` applied to every element of `s`. */
  function MapSeq<T, U>(f: T -> U, s: seq<T>): seq<U>
  {
    seq(|s|, i requires 0 <= i < |s| => f(s[i]))
  }

  /** The concatenation of all the sequences in `ss`. */
  function Flatten<T>(ss: seq<seq<T>>): seq<T>
    decreases |ss|
  {
    if ss == [] then [] else Flatten(ss[..|ss| - 1]) + ss[|ss| - 1]
  }

  /** The positions of `s` whose element satisfies `keep`, in increasing order. */
  function KeptIndices<T>(keep: T -> bool, s: seq<T>): seq<nat>
    decreases |s|
  {
    if s == [] then []
    else KeptIndices(keep, s[..|s| - 1]) + (if keep(s[|s| - 1]) then [|s| - 1] else [])
  }

  /** Filter extended by one element at the back. */
  lemma FilterSnoc<T>(keep: T -> bool, s: seq<T>, x: T)
    ensures Filter(keep, s + [x]) == Filter(keep, s) + (if keep(x) then [x] else [])
  {
    assert (s + [x])[..|s + [x]| - 1] == s;
  }

  /** Filtering distributes over concatenation. */
  lemma {:induction false} FilterAppend<T>(keep: T -> bool, a: seq<T>, b: seq<T>)
    ensures Filter(keep, a + b) == Filter(keep, a) + Filter(keep, b)
    decreases |b|
  {
    if b == [] {
      assert a + b == a;
    } else {
      var b' := b[..|b| - 1];
      var x := b[|b| - 1];
      assert b == b' + [x];
      assert a + b == (a + b') + [x];
      FilterAppend(keep, a, b');
      FilterSnoc(keep, a + b', x);
      FilterSnoc(keep, b', x);
    }
  }

  /** A sequence with no element to keep filters to the empty sequence. */
  lemma {:induction false} FilterNone<T>(keep: T -> bool, s: seq<T>)
    requires forall i :: 0 <= i < |s| ==> !keep(s[i])
    ensures Filter(keep, s) == []
    decreases |s|
  {
    if s != [] {
      FilterNone(keep, s[..|s| - 1]);
    }
  }

  /** A sequence whose every element is kept filters to itself. */
  lemma {:induction false} FilterAll<T>(keep: T -> bool, s: seq<T>)
    requires forall i :: 0 <= i < |s| ==> keep(s[i])
    ensures Filter(keep, s) == s
    decreases |s|
  {
    if s != [] {
      FilterAll(keep, s[..|s| - 1]);
    }
  }

  /** Filtering twice with the same test is filtering once. */
  lemma {:induction false} FilterIdempotent<T>(keep: T -> bool, s: seq<T>)
    ensures Filter(keep, Filter(keep, s)) == Filter(keep, s)
    decreases |s|
  {
    if s != [] {
      var s' := s[..|s| - 1];
      var x := s[|s| - 1];
      FilterIdempotent(keep, s');
      if keep(x) {
        assert Filter(keep, s) == Filter(keep, s') + [x];
        FilterSnoc(keep, Filter(keep, s'), x);
      } else {
        assert Filter(keep, s) == Filter(keep, s');
      }
    }
  }

  /** Everything Filter keeps comes from `s` and satisfies `keep`. */
  lemma {:induction false} FilterMember<T>(keep: T -> bool, s: seq<T>)
    ensures forall x :: x in Filter(keep, s) ==> x in s && keep(x)
    decreases |s|
  {
    if s != [] {
      var s' := s[..|s| - 1];
      FilterMember(keep, s');
      assert forall x :: x in s' ==> x in s;
    }
  }

  /** Filter selects exactly the elements at `KeptIndices`: one result per
      kept position, in increasing order of position, and every position whose
      element satisfies `keep` (and no other) is among them. */
  lemma {:induction false} FilterByIndices<T>(keep: T -> bool, s: seq<T>)
    ensures var r, idx := Filter(keep, s), KeptIndices(keep, s);
      && |r| == |idx|
      && (forall k :: 0 <= k < |idx| ==> idx[k] < |s| && r[k] == s[idx[k]])
      && (forall k, l :: 0 <= k < l < |idx| ==> idx[k] < idx[l])
      && (forall i :: 0 <= i < |s| ==> (keep(s[i]) <==> i in idx))
    decreases |s|
  {
    if s != [] {
      var n := |s| - 1;
      var s' := s[..n];
      FilterByIndices(keep, s');
      var r', idx' := Filter(keep, s'), KeptIndices(keep, s');
      var r, idx := Filter(keep, s), KeptIndices(keep, s);
      assert forall i :: 0 <= i < n ==> s[i] == s'[i];
      if keep(s[n]) {
        assert r == r' + [s[n]] && idx == idx' + [n];
        assert forall k :: 0 <= k < |idx'| ==> idx[k] == idx'[k] && r[k] == r'[k];
      } else {
        assert r == r' && idx == idx';
      }
    }
  }

  /** Mapping distributes over concatenation. */
  lemma MapSeqAppend<T, U>(f: T -> U, a: seq<T>, b: seq<T>)
    ensures MapSeq(f, a + b) == MapSeq(f, a) + MapSeq(f, b)
  {
    assert |MapSeq(f, a + b)| == |MapSeq(f, a) + MapSeq(f, b)|;
    forall i | 0 <= i < |a| + |b|
      ensures MapSeq(f, a + b)[i] == (MapSeq(f, a) + MapSeq(f, b))[i]
    {
      if i < |a| {
        assert (a + b)[i] == a[i];
      } else {
        assert (a + b)[i] == b[i - |a|];
      }
    }
  }

  /** Flattening a sequence that starts with `x`. */
  lemma FlattenCons<T>(x: seq<T>, ss: seq<seq<T>>)
    ensures Flatten([x] + ss) == x + Flatten(ss)
  {
    FlattenAppend([x], ss);
    assert [x][..0] == [];
  }

  /** Flattening distributes over concatenation. */
  lemma {:induction false} FlattenAppend<T>(a: seq<seq<T>>, b: seq<seq<T>>)
    ensures Flatten(a + b) == Flatten(a) + Flatten(b)
    decreases |b|
  {
    if b == [] {
      assert a + b == a;
    } else {
      var b' := b[..|b| - 1];
      assert b == b' + [b[|b| - 1]];
      assert a + b == (a + b') + [b[|b| - 1]];
      assert (a + b)[..|a + b| - 1] == a + b';
      FlattenAppend(a, b');
    }
  }
}
