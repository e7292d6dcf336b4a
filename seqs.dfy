/**
 * Table-level combinators: boolean-mask selection (`df[mask]`), the
 * order-preserving subsequence relation it establishes, column projection,
 * and the skip-NaN minimum and maximum of a numeric column.
 */
module Seqs {
  import opened Wrappers

  /** `r` is obtained from `s` by deleting rows, keeping the order of the rest. */
  ghost predicate Subseq<T>(r: seq<T>, s: seq<T>)
    decreases |s|
  {
    r == [] || (s != [] && ((r[0] == s[0] && Subseq(r[1..], s[1..])) || Subseq(r, s[1..])))
  }

  lemma {:induction false} SubseqRefl<T>(s: seq<T>)
    ensures Subseq(s, s)
  {
    if s != [] {
      SubseqRefl(s[1..]);
    }
  }

  lemma {:induction false} SubseqTrans<T>(a: seq<T>, b: seq<T>, c: seq<T>)
    requires Subseq(a, b) && Subseq(b, c)
    ensures Subseq(a, c)
    decreases |c|
  {
    if a != [] {
      if Subseq(b, c[1..]) {
        SubseqTrans(a, b, c[1..]);
      } else if a[0] == b[0] && Subseq(a[1..], b[1..]) {
        SubseqTrans(a[1..], b[1..], c[1..]);
      } else {
        SubseqTrans(a, b[1..], c[1..]);
      }
    }
  }

  /** Every row of a subsequence is a row of the whole. */
  lemma {:induction false} SubseqMembers<T>(r: seq<T>, s: seq<T>)
    requires Subseq(r, s)
    ensures forall x :: x in r ==> x in s
    decreases |s|
  {
    if r != [] {
      if r[0] == s[0] && Subseq(r[1..], s[1..]) {
        SubseqMembers(r[1..], s[1..]);
        assert forall x :: x in r ==> x == r[0] || x in r[1..];
      } else {
        SubseqMembers(r, s[1..]);
      }
    }
  }

  /** Applies `f` to every row: a derived column, or a projection to some of the columns. */
  function MapSeq<A, B>(s: seq<A>, f: A -> B): seq<B>
  {
    seq(|s|, i requires 0 <= i < |s| => f(s[i]))
  }

  /** Projecting the rows keeps them a subsequence. */
  lemma {:induction false} SubseqMap<A, B>(r: seq<A>, s: seq<A>, f: A -> B)
    requires Subseq(r, s)
    ensures Subseq(MapSeq(r, f), MapSeq(s, f))
    decreases |s|
  {
    if r != [] {
      assert MapSeq(s, f)[1..] == MapSeq(s[1..], f);
      assert MapSeq(r, f)[1..] == MapSeq(r[1..], f);
      if r[0] == s[0] && Subseq(r[1..], s[1..]) {
        SubseqMap(r[1..], s[1..], f);
      } else {
        SubseqMap(r, s[1..], f);
      }
    }
  }

  /** `df[mask]`: the rows satisfying `keep`, in their original order. */
  function Where<T(!new)>(s: seq<T>, keep: T -> bool): (r: seq<T>)
    ensures |r| <= |s|
    ensures forall x :: x in r <==> x in s && keep(x)
    ensures Subseq(r, s)
  {
    if s == [] then []
    else if keep(s[0]) then
      var rest := Where(s[1..], keep);
      assert ([s[0]] + rest)[1..] == rest;
      [s[0]] + rest
    else Where(s[1..], keep)
  }

  /** A mask that keeps every row selects the whole table. */
  lemma {:induction false} WhereAll<T(!new)>(s: seq<T>, keep: T -> bool)
    requires forall x :: x in s ==> keep(x)
    ensures Where(s, keep) == s
  {
    if s != [] {
      WhereAll(s[1..], keep);
    }
  }

  /** A filter stage applied twice is applied once: masking an already-masked table changes nothing. */
  lemma WhereIdempotent<T(!new)>(s: seq<T>, keep: T -> bool)
    ensures Where(Where(s, keep), keep) == Where(s, keep)
  {
    WhereAll(Where(s, keep), keep);
  }

  /** Both masks at once (`mask1 & mask2`). */
  function And<T>(p: T -> bool, q: T -> bool): T -> bool
  {
    x => p(x) && q(x)
  }

  /** Two masks in succession select what their conjunction selects. */
  lemma {:induction false} WhereWhere<T(!new)>(s: seq<T>, p: T -> bool, q: T -> bool)
    ensures Where(Where(s, p), q) == Where(s, And(p, q))
  {
    if s != [] {
      WhereWhere(s[1..], p, q);
      if p(s[0]) {
        assert Where(s, p) == [s[0]] + Where(s[1..], p);
        assert ([s[0]] + Where(s[1..], p))[1..] == Where(s[1..], p);
      }
    }
  }

  /** The complement of a mask (`~mask`). */
  function Not<T>(keep: T -> bool): T -> bool
  {
    x => !keep(x)
  }

  /** A mask and its complement split the table: the two row counts add up to the total. */
  lemma {:induction false} WherePartition<T(!new)>(s: seq<T>, keep: T -> bool)
    ensures |Where(s, keep)| + |Where(s, Not(keep))| == |s|
  {
    if s != [] {
      WherePartition(s[1..], keep);
    }
  }

  /** Only a mask's values on the table's own rows matter. */
  lemma {:induction false} WhereExt<T(!new)>(s: seq<T>, p: T -> bool, q: T -> bool)
    requires forall x :: x in s ==> p(x) == q(x)
    ensures Where(s, p) == Where(s, q)
  {
    if s != [] {
      WhereExt(s[1..], p, q);
    }
  }

  /** The mask that tests a derived column, as a mask on the underlying rows. */
  function Compose<A, B>(f: A -> B, p: B -> bool): A -> bool
  {
    x => p(f(x))
  }

  /** Deriving a column and then masking on it is masking first and deriving after. */
  lemma {:induction false} WhereMap<A(!new), B(!new)>(s: seq<A>, f: A -> B, p: B -> bool)
    ensures Where(MapSeq(s, f), p) == MapSeq(Where(s, Compose(f, p)), f)
  {
    if s != [] {
      WhereMap(s[1..], f, p);
      assert MapSeq(s, f) == [f(s[0])] + MapSeq(s[1..], f);
      if p(f(s[0])) {
        assert Where(s, Compose(f, p)) == [s[0]] + Where(s[1..], Compose(f, p));
        assert MapSeq([s[0]] + Where(s[1..], Compose(f, p)), f) == [f(s[0])] + MapSeq(Where(s[1..], Compose(f, p)), f);
      }
    }
  }

  /** Deriving one column after another is deriving both at once. */
  lemma MapMap<A, B, C>(s: seq<A>, f: A -> B, g: B -> C, h: A -> C)
    requires forall x :: x in s ==> g(f(x)) == h(x)
    ensures MapSeq(MapSeq(s, f), g) == MapSeq(s, h)
  {
    assert forall i :: 0 <= i < |s| ==> s[i] in s;
  }

  /** For a table without repeated rows, a subsequence is fixed by which rows it holds. */
  lemma {:induction false} SubseqDetermined<T(!new)>(r: seq<T>, s: seq<T>, keep: T -> bool)
    requires forall i, j :: 0 <= i < j < |s| ==> s[i] != s[j]
    requires Subseq(r, s)
    requires forall x :: x in r <==> x in s && keep(x)
    ensures r == Where(s, keep)
    decreases |s|
  {
    if r == [] {
      if s != [] {
        WhereNone(s, keep);
      }
    } else {
      assert s != [];
      if keep(s[0]) {
        assert s[0] in r;
        if r[0] == s[0] && Subseq(r[1..], s[1..]) {
          SubseqMembers(r[1..], s[1..]);
          forall x ensures x in r[1..] <==> x in s[1..] && keep(x) {
            if x in s[1..] && keep(x) {
              assert x != s[0] by { NotInTail(s); }
              assert x in r;
              assert r == [r[0]] + r[1..];
            }
            if x in r[1..] {
              NotInTail(s);
            }
          }
          SubseqDetermined(r[1..], s[1..], keep);
          assert Where(s, keep) == [s[0]] + Where(s[1..], keep);
          assert r == [r[0]] + r[1..];
        } else {
          SubseqMembers(r, s[1..]);
          NotInTail(s);
          assert false;
        }
      } else {
        assert s[0] !in r;
        assert Subseq(r, s[1..]);
        forall i, j | 0 <= i < j < |s[1..]| ensures s[1..][i] != s[1..][j] {
          assert s[1..][i] == s[i + 1] && s[1..][j] == s[j + 1];
        }
        SubseqMembers(r, s[1..]);
        SubseqDetermined(r, s[1..], keep);
      }
    }
  }

  lemma NotInTail<T>(s: seq<T>)
    requires s != []
    requires forall i, j :: 0 <= i < j < |s| ==> s[i] != s[j]
    ensures s[0] !in s[1..]
    ensures forall i, j :: 0 <= i < j < |s[1..]| ==> s[1..][i] != s[1..][j]
  {
    forall i, j | 0 <= i < j < |s[1..]| ensures s[1..][i] != s[1..][j] {
      assert s[1..][i] == s[i + 1] && s[1..][j] == s[j + 1];
    }
  }

  lemma WhereNone<T(!new)>(s: seq<T>, keep: T -> bool)
    requires forall x :: x in s ==> !keep(x)
    ensures Where(s, keep) == []
  {
    if Where(s, keep) != [] {
      assert Where(s, keep)[0] in Where(s, keep);
    }
  }

  /**
   * `int(col.min())` and `int(col.max())` of a numeric column with missing
   * values: `None` when every cell is missing, otherwise the least and the
   * greatest present value.
   */
  function Bounds(xs: seq<Option<int>>): (r: Option<(int, int)>)
    ensures r.None? <==> forall i :: 0 <= i < |xs| ==> xs[i].None?
    ensures r.Some? ==> r.value.0 <= r.value.1
    ensures r.Some? ==> (exists i :: 0 <= i < |xs| && xs[i] == Some(r.value.0))
    ensures r.Some? ==> (exists i :: 0 <= i < |xs| && xs[i] == Some(r.value.1))
    ensures r.Some? ==> forall i :: 0 <= i < |xs| && xs[i].Some? ==> r.value.0 <= xs[i].value <= r.value.1
  {
    if xs == [] then None
    else
      var rest := Bounds(xs[1..]);
      assert forall i :: 1 <= i < |xs| ==> xs[i] == xs[1..][i - 1];
      match xs[0]
      case None => rest
      case Some(v) =>
        if rest.None? then Some((v, v))
        else
          (
            var lo := if v <= rest.value.0 then v else rest.value.0;
            var hi := if rest.value.1 <= v then v else rest.value.1;
            Some((lo, hi))
          )
  }
}
