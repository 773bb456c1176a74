/** Occurrence counts, and the insertion-ordered count tables that the
    analysis builds for word frequencies and n-grams (api/mod.ts). */
module Counting {
  import opened Results

  /** Number of occurrences of w in xs. */
  function Count(xs: seq<string>, w: string): (n: nat)
    ensures n <= |xs|
    ensures n > 0 <==> w in xs
  {
    if xs == [] then 0
    else
      var init := xs[..|xs| - 1];
      assert xs == init + [xs[|xs| - 1]];
      Count(init, w) + (if xs[|xs| - 1] == w then 1 else 0)
  }

  lemma {:induction false} CountAppend(a: seq<string>, b: seq<string>, w: string)
    ensures Count(a + b, w) == Count(a, w) + Count(b, w)
    decreases |b|
  {
    if b == [] {
      assert a + b == a;
    } else {
      var b' := b[..|b| - 1];
      assert (a + b)[..|a + b| - 1] == a + b';
      CountAppend(a, b', w);
    }
  }

  /** The distinct elements of xs (`new Set(xs)`). */
  function Elems(xs: seq<string>): set<string>
  {
    set w | w in xs
  }

  lemma {:induction false} ElemsAtMostLength(xs: seq<string>)
    ensures |Elems(xs)| <= |xs|
    decreases |xs|
  {
    if xs != [] {
      var init := xs[..|xs| - 1];
      assert xs == init + [xs[|xs| - 1]];
      assert Elems(xs) == Elems(init) + {xs[|xs| - 1]};
      ElemsAtMostLength(init);
    }
  }

  /** Position of the first occurrence of w in xs, or |xs| when w does not occur. */
  function FirstIndex(xs: seq<string>, w: string): (i: nat)
    ensures i <= |xs|
    ensures i < |xs| <==> w in xs
    ensures i < |xs| ==> xs[i] == w
    ensures forall j :: 0 <= j < i ==> xs[j] != w
  {
    if xs == [] then 0
    else if xs[0] == w then 0
    else 1 + FirstIndex(xs[1..], w)
  }

  lemma FirstIndexAppend(ys: seq<string>, x: string, w: string)
    requires w in ys
    ensures FirstIndex(ys + [x], w) == FirstIndex(ys, w)
  {
    var a, b := FirstIndex(ys, w), FirstIndex(ys + [x], w);
    assert (ys + [x])[a] == w;
    if b < a {
      assert ys[b] == (ys + [x])[b];
    }
  }

  /** One row of a count table: a key and the number of times it was seen. */
  datatype Entry = Entry(key: string, count: nat)

  /** The keys of a table, in table order. */
  function Keys(t: seq<Entry>): seq<string>
  {
    seq(|t|, i requires 0 <= i < |t| => t[i].key)
  }

  predicate DistinctKeys(t: seq<Entry>)
  {
    forall i, j :: 0 <= i < j < |t| ==> t[i].key != t[j].key
  }

  /** `table[k] = (table[k] || 0) + 1`: increments the row of k, or appends a
      row for k with count 1 when k is not yet a key. */
  function Bump(t: seq<Entry>, k: string): seq<Entry>
  {
    var i := FirstIndex(Keys(t), k);
    if i == |t| then t + [Entry(k, 1)]
    else t[i := Entry(k, t[i].count + 1)]
  }

  /** The table obtained by bumping every element of xs in turn, starting from
      an empty table: what the frequency `reduce` and the n-gram loop build.
      The repetition loop builds a map instead; `RepetitionIsTallyRow` relates
      its test to this table. */
  function Tally(xs: seq<string>): seq<Entry>
    decreases |xs|
  {
    if xs == [] then [] else Bump(Tally(xs[..|xs| - 1]), xs[|xs| - 1])
  }

  /** Sum of the counts of a table. */
  function Total(t: seq<Entry>): nat
  {
    if t == [] then 0 else Total(t[..|t| - 1]) + t[|t| - 1].count
  }

  lemma {:induction false} TotalUpdate(t: seq<Entry>, i: nat, e: Entry)
    requires i < |t|
    ensures Total(t[i := e]) == Total(t) - t[i].count + e.count
    decreases |t|
  {
    var u := t[i := e];
    if i == |t| - 1 {
      assert u[..|u| - 1] == t[..|t| - 1];
    } else {
      assert u[..|u| - 1] == t[..|t| - 1][i := e];
      TotalUpdate(t[..|t| - 1], i, e);
    }
  }

  /** Every table built by Tally has one row per distinct element of xs, and
      each row counts exactly the occurrences of its key. */
  lemma {:induction false} TallyRows(xs: seq<string>)
    ensures DistinctKeys(Tally(xs))
    ensures forall i :: 0 <= i < |Tally(xs)| ==>
      Tally(xs)[i].key in xs && Tally(xs)[i].count == Count(xs, Tally(xs)[i].key) >= 1
    ensures forall w :: w in xs <==> w in Keys(Tally(xs))
    decreases |xs|
  {
    if xs != [] {
      var ys, x := xs[..|xs| - 1], xs[|xs| - 1];
      assert xs == ys + [x];
      TallyRows(ys);
      var t0 := Tally(ys);
      var i := FirstIndex(Keys(t0), x);
      if i == |t0| {
        assert x !in ys;
        assert Keys(Tally(xs)) == Keys(t0) + [x];
      } else {
        assert Keys(Tally(xs)) == Keys(t0);
      }
    }
  }

  /** The counts of a tally add up to the number of elements tallied. */
  lemma {:induction false} TallyTotal(xs: seq<string>)
    ensures Total(Tally(xs)) == |xs|
    decreases |xs|
  {
    if xs != [] {
      var ys, x := xs[..|xs| - 1], xs[|xs| - 1];
      TallyTotal(ys);
      TotalBump(Tally(ys), x);
    }
  }

  /** Bumping a key adds one to the total. */
  lemma TotalBump(t: seq<Entry>, x: string)
    ensures Total(Bump(t, x)) == Total(t) + 1
  {
    var i := FirstIndex(Keys(t), x);
    if i == |t| {
      var u := t + [Entry(x, 1)];
      assert u[..|u| - 1] == t;
    } else {
      TotalUpdate(t, i, Entry(x, t[i].count + 1));
    }
  }

  /** A tally has exactly as many rows as xs has distinct elements. */
  lemma {:induction false} TallySize(xs: seq<string>)
    ensures |Tally(xs)| == |Elems(xs)|
    decreases |xs|
  {
    if xs != [] {
      var ys, x := xs[..|xs| - 1], xs[|xs| - 1];
      assert xs == ys + [x];
      assert Elems(xs) == Elems(ys) + {x};
      TallySize(ys);
      TallyRows(ys);
      var t0 := Tally(ys);
      assert Tally(xs) == Bump(t0, x);
      if x in ys {
        assert x in Keys(t0);
        assert FirstIndex(Keys(t0), x) < |t0|;
        assert Elems(xs) == Elems(ys);
      } else {
        assert x !in Keys(t0);
        assert FirstIndex(Keys(t0), x) == |t0|;
        assert x !in Elems(ys);
      }
    }
  }

  /** The rows of t appear in the order in which their keys first occur in xs. */
  predicate InFirstOccurrenceOrder(xs: seq<string>, t: seq<Entry>)
  {
    forall i, j :: 0 <= i < j < |t| ==> FirstIndex(xs, t[i].key) < FirstIndex(xs, t[j].key)
  }

  /** Rows appear in the order in which their keys first occur in xs. */
  lemma {:induction false} TallyOrder(xs: seq<string>)
    ensures InFirstOccurrenceOrder(xs, Tally(xs))
    decreases |xs|
  {
    if xs != [] {
      var ys, x := xs[..|xs| - 1], xs[|xs| - 1];
      assert xs == ys + [x];
      TallyOrder(ys);
      TallyRows(ys);
      BumpKeepsOrder(ys, x, Tally(ys));
    }
  }

  /** Counting one more element keeps a table in first-occurrence order: a new
      key goes last, and its first occurrence is the new last position. */
  lemma BumpKeepsOrder(ys: seq<string>, x: string, t0: seq<Entry>)
    requires InFirstOccurrenceOrder(ys, t0)
    requires forall w :: w in ys <==> w in Keys(t0)
    ensures InFirstOccurrenceOrder(ys + [x], Bump(t0, x))
  {
    forall i | 0 <= i < |t0|
      ensures t0[i].key in ys
    {
      assert Keys(t0)[i] == t0[i].key;
    }
    if FirstIndex(Keys(t0), x) == |t0| {
      NewKeyKeepsOrder(ys, x, t0);
    } else {
      OldKeyKeepsOrder(ys, x, t0);
    }
  }

  lemma NewKeyKeepsOrder(ys: seq<string>, x: string, t0: seq<Entry>)
    requires InFirstOccurrenceOrder(ys, t0)
    requires forall i :: 0 <= i < |t0| ==> t0[i].key in ys
    requires x !in ys
    ensures InFirstOccurrenceOrder(ys + [x], t0 + [Entry(x, 1)])
  {
    var xs, t := ys + [x], t0 + [Entry(x, 1)];
    assert xs[|ys|] == x;
    assert forall m :: 0 <= m < |ys| ==> xs[m] == ys[m];
    assert FirstIndex(xs, x) == |ys|;
    forall i, j | 0 <= i < j < |t|
      ensures FirstIndex(xs, t[i].key) < FirstIndex(xs, t[j].key)
    {
      assert t[i] == t0[i];
      FirstIndexAppend(ys, x, t0[i].key);
      if j < |t0| {
        assert t[j] == t0[j];
        FirstIndexAppend(ys, x, t0[j].key);
      }
    }
  }

  lemma OldKeyKeepsOrder(ys: seq<string>, x: string, t0: seq<Entry>)
    requires InFirstOccurrenceOrder(ys, t0)
    requires forall i :: 0 <= i < |t0| ==> t0[i].key in ys
    requires FirstIndex(Keys(t0), x) < |t0|
    ensures InFirstOccurrenceOrder(ys + [x], Bump(t0, x))
  {
    var t := Bump(t0, x);
    forall i, j | 0 <= i < j < |t|
      ensures FirstIndex(ys + [x], t[i].key) < FirstIndex(ys + [x], t[j].key)
    {
      assert t[i].key == t0[i].key && t[j].key == t0[j].key;
      FirstIndexAppend(ys, x, t0[i].key);
      FirstIndexAppend(ys, x, t0[j].key);
    }
  }

  /** `entries.reduce((a, b) => b[1] > a[1] ? b : a)`, acc being the running
      value and rest the entries still to visit. */
  function Reduce(acc: Entry, rest: seq<Entry>): Entry
    decreases |rest|
  {
    if rest == [] then acc
    else Reduce(if rest[0].count > acc.count then rest[0] else acc, rest[1..])
  }

  /** The most used row of a table; reducing an empty table fails. */
  function MostUsed(t: seq<Entry>): (r: Result<Entry>)
    ensures r.Failure? <==> t == []
  {
    if t == [] then Failure(EmptyInput) else Success(Reduce(t[0], t[1..]))
  }

  /** The fold returns the running value or an entry of rest; its count bounds
      every count seen; and an entry of rest wins only over strictly smaller
      counts before it. */
  lemma {:induction false} ReduceKeepsFirstMaximum(acc: Entry, rest: seq<Entry>)
    ensures acc.count <= Reduce(acc, rest).count
    ensures forall j :: 0 <= j < |rest| ==> rest[j].count <= Reduce(acc, rest).count
    ensures Reduce(acc, rest) == acc ||
      exists k :: 0 <= k < |rest| && Reduce(acc, rest) == rest[k] && acc.count < rest[k].count &&
        forall j :: 0 <= j < k ==> rest[j].count < rest[k].count
    decreases |rest|
  {
    if rest != [] {
      var b := rest[0];
      var acc' := if b.count > acc.count then b else acc;
      var tail := rest[1..];
      ReduceKeepsFirstMaximum(acc', tail);
      var r := Reduce(acc', tail);
      assert r == Reduce(acc, rest);
      if r == acc' {
        if acc' != acc {
          assert r == rest[0];
        }
      } else {
        var k :| 0 <= k < |tail| && r == tail[k] && acc'.count < tail[k].count &&
          forall j :: 0 <= j < k ==> tail[j].count < tail[k].count;
        assert r == rest[k + 1];
        assert forall j :: 0 <= j < k + 1 ==> rest[j].count < rest[k + 1].count by {
          forall j | 0 <= j < k + 1 ensures rest[j].count < rest[k + 1].count {
            if j > 0 { assert rest[j] == tail[j - 1]; }
          }
        }
      }
    }
  }

  /** On a non-empty table the most used row is the first row whose count is
      maximal: ties keep the earlier row, because the comparison is strict. */
  lemma MostUsedIsFirstMaximum(t: seq<Entry>)
    requires t != []
    ensures exists k ::
              && 0 <= k < |t| && MostUsed(t) == Success(t[k])
              && (forall j :: 0 <= j < |t| ==> t[j].count <= t[k].count)
              && (forall j :: 0 <= j < k ==> t[j].count < t[k].count)
  {
    ReduceKeepsFirstMaximum(t[0], t[1..]);
    var r := Reduce(t[0], t[1..]);
    if r == t[0] {
      assert forall j :: 0 <= j < |t| ==> t[j].count <= t[0].count by {
        forall j | 0 <= j < |t| ensures t[j].count <= t[0].count {
          if j > 0 { assert t[j] == t[1..][j - 1]; }
        }
      }
    } else {
      var k :| 0 <= k < |t[1..]| && r == t[1..][k] && t[0].count < t[1..][k].count &&
        forall j :: 0 <= j < k ==> t[1..][j].count < t[1..][k].count;
      assert r == t[k + 1];
      forall j | 0 <= j < |t| ensures t[j].count <= t[k + 1].count {
        if j > 0 { assert t[j] == t[1..][j - 1]; }
      }
      forall j | 0 <= j < k + 1 ensures t[j].count < t[k + 1].count {
        if j > 0 { assert t[j] == t[1..][j - 1]; }
      }
    }
  }

  /** w is a most frequent element of ys, and among the most frequent ones the
      one that occurs first. */
  ghost predicate IsMostUsedWord(ys: seq<string>, w: string)
  {
    w in ys &&
    (forall v :: v in ys ==> Count(ys, v) <= Count(ys, w)) &&
    (forall v :: v in ys && Count(ys, v) == Count(ys, w) ==> FirstIndex(ys, w) <= FirstIndex(ys, v))
  }

  /** The row of the tally that holds v, for an element v of ys. */
  lemma RowOf(ys: seq<string>, v: string) returns (i: nat)
    requires v in ys
    ensures i < |Tally(ys)| && Tally(ys)[i].key == v && Tally(ys)[i].count == Count(ys, v)
  {
    TallyRows(ys);
    assert v in Keys(Tally(ys));
    i :| 0 <= i < |Tally(ys)| && Keys(Tally(ys))[i] == v;
  }

  /** The most used row of the tally of a non-empty ys names its most frequent
      element, the earliest-occurring one on a tie, with its count. */
  lemma MostUsedOfTally(ys: seq<string>)
    requires ys != []
    ensures MostUsed(Tally(ys)).Success?
    ensures IsMostUsedWord(ys, MostUsed(Tally(ys)).value.key)
    ensures MostUsed(Tally(ys)).value.count == Count(ys, MostUsed(Tally(ys)).value.key)
  {
    var t := Tally(ys);
    var first := RowOf(ys, ys[0]);
    MostUsedIsFirstMaximum(t);
    var k :| 0 <= k < |t| && MostUsed(t) == Success(t[k]) &&
      (forall j :: 0 <= j < |t| ==> t[j].count <= t[k].count) &&
      (forall j :: 0 <= j < k ==> t[j].count < t[k].count);
    var w := t[k].key;
    TallyRows(ys);
    assert w in ys && t[k].count == Count(ys, w);
    forall v | v in ys
      ensures Count(ys, v) <= Count(ys, w)
      ensures Count(ys, v) == Count(ys, w) ==> FirstIndex(ys, w) <= FirstIndex(ys, v)
    {
      var i := RowOf(ys, v);
      if Count(ys, v) == Count(ys, w) && i != k {
        assert k < i;
        TallyOrder(ys);
      }
    }
  }
}
