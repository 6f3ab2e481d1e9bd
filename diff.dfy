/**
 * The positional classification `reconcileChildren` makes, stated on the
 * kinds alone: `nk[k]` is the `type` of the new child at position `k`,
 * `ok[k]` the `type` of the k-th fiber of the old sibling chain.  There is
 * no keyed matching: position `k` of one sequence is only ever compared
 * with position `k` of the other.
 */
module Diff {
  import opened Fibers

  /** Position `k` has both a new child and an old fiber, of the same type: an UPDATE. */
  predicate Same(nk: seq<Kind>, ok: seq<Kind>, k: nat)
  {
    k < |nk| && k < |ok| && nk[k] == ok[k]
  }

  /**
   * The three classes of positions: those whose old fiber is marked
   * DELETE, those that get a fresh INSERT fiber, and those present on both
   * sides whose type changed.
   */
  datatype Class = Deletes | Inserts | Changes

  predicate Picked(c: Class, nk: seq<Kind>, ok: seq<Kind>, k: nat)
  {
    match c
    case Deletes => k < |ok| && !Same(nk, ok, k)
    case Inserts => k < |nk| && !Same(nk, ok, k)
    case Changes => k < |nk| && k < |ok| && nk[k] != ok[k]
  }

  predicate Increasing(s: seq<nat>)
  {
    forall i, j | 0 <= i < j < |s| :: s[i] < s[j]
  }

  /** The positions of class `c` below `n`, in the order the loop reaches them. */
  function Positions(c: Class, nk: seq<Kind>, ok: seq<Kind>, n: nat): (d: seq<nat>)
    ensures forall j | 0 <= j < |d| :: d[j] < n
  {
    if n == 0 then []
    else Positions(c, nk, ok, n - 1) + (if Picked(c, nk, ok, n - 1) then [n - 1] else [])
  }

  function Deleted(nk: seq<Kind>, ok: seq<Kind>): seq<nat>
  {
    Positions(Deletes, nk, ok, |ok|)
  }

  function Inserted(nk: seq<Kind>, ok: seq<Kind>): seq<nat>
  {
    Positions(Inserts, nk, ok, |nk|)
  }

  function Changed(nk: seq<Kind>, ok: seq<Kind>): seq<nat>
  {
    Positions(Changes, nk, ok, if |nk| < |ok| then |nk| else |ok|)
  }

  /** Every listed position is of class `c`. */
  lemma {:induction false} PositionsPicked(c: Class, nk: seq<Kind>, ok: seq<Kind>, n: nat)
    ensures forall j | 0 <= j < |Positions(c, nk, ok, n)| :: Picked(c, nk, ok, Positions(c, nk, ok, n)[j])
    decreases n
  {
    if n > 0 {
      PositionsPicked(c, nk, ok, n - 1);
      var prev := Positions(c, nk, ok, n - 1);
      if Picked(c, nk, ok, n - 1) {
        assert Positions(c, nk, ok, n) == prev + [n - 1];
        SnocPicked(c, nk, ok, prev, n - 1);
      } else {
        assert Positions(c, nk, ok, n) == prev;
      }
    }
  }

  lemma SnocPicked(c: Class, nk: seq<Kind>, ok: seq<Kind>, prev: seq<nat>, e: nat)
    requires forall j | 0 <= j < |prev| :: Picked(c, nk, ok, prev[j])
    requires Picked(c, nk, ok, e)
    ensures forall j | 0 <= j < |prev + [e]| :: Picked(c, nk, ok, (prev + [e])[j])
  {
    var d := prev + [e];
    forall j | 0 <= j < |d|
      ensures Picked(c, nk, ok, d[j])
    {
      if j < |prev| {
        assert d[j] == prev[j];
      } else {
        assert d[j] == e;
      }
    }
  }

  /** Every position of class `c` below `n` is listed. */
  lemma {:induction false} PositionsComplete(c: Class, nk: seq<Kind>, ok: seq<Kind>, n: nat, k: nat)
    requires k < n && Picked(c, nk, ok, k)
    ensures k in Positions(c, nk, ok, n)
    decreases n
  {
    var prev := Positions(c, nk, ok, n - 1);
    if k < n - 1 {
      PositionsComplete(c, nk, ok, n - 1, k);
      assert Positions(c, nk, ok, n) == prev + (if Picked(c, nk, ok, n - 1) then [n - 1] else []);
    } else {
      assert Positions(c, nk, ok, n) == prev + [k];
    }
  }

  /** The positions are listed in increasing order. */
  lemma {:induction false} PositionsIncreasing(c: Class, nk: seq<Kind>, ok: seq<Kind>, n: nat)
    ensures Increasing(Positions(c, nk, ok, n))
    decreases n
  {
    if n > 0 {
      PositionsIncreasing(c, nk, ok, n - 1);
      if Picked(c, nk, ok, n - 1) {
        SnocIncreasing(Positions(c, nk, ok, n - 1), n - 1);
      }
    }
  }

  lemma SnocIncreasing(prev: seq<nat>, e: nat)
    requires Increasing(prev) && forall j | 0 <= j < |prev| :: prev[j] < e
    ensures Increasing(prev + [e])
  {
  }

  /**
   * The classification is exact: a position is listed if and only if it
   * is of class `c`, and the list is increasing (so has no repeats).
   */
  lemma PositionsExact(c: Class, nk: seq<Kind>, ok: seq<Kind>, n: nat, k: nat)
    requires k < n
    ensures k in Positions(c, nk, ok, n) <==> Picked(c, nk, ok, k)
    ensures Increasing(Positions(c, nk, ok, n))
  {
    PositionsPicked(c, nk, ok, n);
    PositionsIncreasing(c, nk, ok, n);
    if Picked(c, nk, ok, k) {
      PositionsComplete(c, nk, ok, n, k);
    }
  }

  /** Past the end of the old chain the loop deletes nothing more. */
  lemma {:induction false} DeletedPastOld(nk: seq<Kind>, ok: seq<Kind>, n: nat)
    requires n >= |ok|
    ensures Positions(Deletes, nk, ok, n) == Deleted(nk, ok)
    decreases n
  {
    if n > |ok| {
      DeletedPastOld(nk, ok, n - 1);
    }
  }

  /** Past the end of the new children the loop inserts nothing more. */
  lemma {:induction false} InsertedPastNew(nk: seq<Kind>, ok: seq<Kind>, n: nat)
    requires n >= |nk|
    ensures Positions(Inserts, nk, ok, n) == Inserted(nk, ok)
    decreases n
  {
    if n > |nk| {
      InsertedPastNew(nk, ok, n - 1);
    }
  }

  lemma {:induction false} DeletedCountUpTo(nk: seq<Kind>, ok: seq<Kind>, n: nat)
    ensures |Positions(Deletes, nk, ok, n)| == |Positions(Changes, nk, ok, n)| + TailCount(|nk|, if n < |ok| then n else |ok|)
    decreases n
  {
    if n > 0 {
      DeletedCountUpTo(nk, ok, n - 1);
    }
  }

  lemma {:induction false} InsertedCountUpTo(nk: seq<Kind>, ok: seq<Kind>, n: nat)
    ensures |Positions(Inserts, nk, ok, n)| == |Positions(Changes, nk, ok, n)| + TailCount(|ok|, if n < |nk| then n else |nk|)
    decreases n
  {
    if n > 0 {
      InsertedCountUpTo(nk, ok, n - 1);
    }
  }

  /** How many of the positions `lo .. hi - 1` there are (none when `hi <= lo`). */
  function TailCount(lo: nat, hi: nat): nat
  {
    if hi <= lo then 0 else hi - lo
  }

  lemma {:induction false} ChangedStable(nk: seq<Kind>, ok: seq<Kind>, n: nat)
    requires n >= |nk| || n >= |ok|
    ensures Positions(Changes, nk, ok, n) == Changed(nk, ok)
    decreases n
  {
    var m := if |nk| < |ok| then |nk| else |ok|;
    if n > m {
      ChangedStable(nk, ok, n - 1);
    }
  }

  /**
   * Going from N old fibers to M new children deletes one old fiber per
   * type-changed position plus the N - M tail fibers when M < N.
   */
  lemma DeleteCount(nk: seq<Kind>, ok: seq<Kind>)
    ensures |Deleted(nk, ok)| == |Changed(nk, ok)| + TailCount(|nk|, |ok|)
  {
    DeletedCountUpTo(nk, ok, |ok|);
    ChangedStable(nk, ok, |ok|);
  }

  /**
   * Going from N old fibers to M new children inserts one fiber per
   * type-changed position plus the M - N tail children when M > N.
   */
  lemma InsertCount(nk: seq<Kind>, ok: seq<Kind>)
    ensures |Inserted(nk, ok)| == |Changed(nk, ok)| + TailCount(|ok|, |nk|)
  {
    InsertedCountUpTo(nk, ok, |nk|);
    ChangedStable(nk, ok, |nk|);
  }

  /** `lo` when `n` is below it, `hi` when `n` is above it, else `n`. */
  function Clamp(lo: nat, n: nat, hi: nat): nat
  {
    if n < lo then lo else if n < hi then n else hi
  }

  /** With `a` a prefix of `b`, position `k` is classified only by whether it lies past `a`. */
  lemma {:induction false} PrefixPositions(c: Class, a: seq<Kind>, b: seq<Kind>, nk: seq<Kind>, ok: seq<Kind>, n: nat)
    requires |a| <= |b| && a == b[..|a|]
    requires ((nk, ok) == (a, b) && c == Deletes) || ((nk, ok) == (b, a) && c == Inserts)
    ensures IsRange(Positions(c, nk, ok, n), |a|, Clamp(|a|, n, |b|))
    decreases n
  {
    if n > 0 {
      PrefixPositions(c, a, b, nk, ok, n - 1);
      var prev := Positions(c, nk, ok, n - 1);
      if n - 1 < |a| {
        assert a[n - 1] == b[n - 1];
        assert !Picked(c, nk, ok, n - 1);
        assert Positions(c, nk, ok, n) == prev;
      } else if n - 1 < |b| {
        assert Picked(c, nk, ok, n - 1);
        RangeSnoc(prev, |a|, n - 1);
      } else {
        assert !Picked(c, nk, ok, n - 1);
        assert Positions(c, nk, ok, n) == prev;
      }
    }
  }

  lemma {:induction false} PrefixNone(c: Class, a: seq<Kind>, b: seq<Kind>, nk: seq<Kind>, ok: seq<Kind>, n: nat)
    requires |a| <= |b| && a == b[..|a|]
    requires ((nk, ok) == (a, b) && c == Inserts) || ((nk, ok) == (b, a) && c == Deletes)
    ensures Positions(c, nk, ok, n) == []
    decreases n
  {
    if n > 0 {
      PrefixNone(c, a, b, nk, ok, n - 1);
      if n - 1 < |a| {
        assert a[n - 1] == b[n - 1];
      }
      assert !Picked(c, nk, ok, n - 1);
    }
  }

  /**
   * Shrinking a list whose surviving positions keep their types deletes
   * exactly the tail old fibers, positions M .. N - 1, and inserts nothing;
   * with M == N (an unchanged re-render) nothing is inserted or deleted.
   */
  lemma Shrink(nk: seq<Kind>, ok: seq<Kind>)
    requires |nk| <= |ok| && nk == ok[..|nk|]
    ensures IsRange(Deleted(nk, ok), |nk|, |ok|)
    ensures Inserted(nk, ok) == []
  {
    PrefixPositions(Deletes, nk, ok, nk, ok, |ok|);
    PrefixNone(Inserts, nk, ok, nk, ok, |nk|);
  }

  /**
   * Growing a list whose existing positions keep their types inserts
   * exactly the tail children, positions N .. M - 1, and deletes nothing.
   */
  lemma Grow(nk: seq<Kind>, ok: seq<Kind>)
    requires |ok| <= |nk| && ok == nk[..|ok|]
    ensures IsRange(Inserted(nk, ok), |ok|, |nk|)
    ensures Deleted(nk, ok) == []
  {
    PrefixPositions(Inserts, ok, nk, nk, ok, |nk|);
    PrefixNone(Deletes, ok, nk, nk, ok, |ok|);
  }
}
