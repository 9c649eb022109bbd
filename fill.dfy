/**
 * The greedy fill behind the grid sequencer: a pool of items is emptied one
 * item per round, each round moving the item a pick rule selects (given what
 * has been placed so far) to the end of the placed sequence.
 */
module GreedyFill {
  /** `remaining.splice(i, 1)`. */
  function RemoveAt<E>(s: seq<E>, i: nat): (r: seq<E>)
    requires i < |s|
    ensures |r| == |s| - 1
  {
    s[..i] + s[i + 1..]
  }

  /** Removing an element leaves the others, in their order. */
  lemma RemoveAtContents<E>(s: seq<E>, i: nat)
    requires i < |s|
    ensures multiset(RemoveAt(s, i)) + multiset{s[i]} == multiset(s)
    ensures forall j :: 0 <= j < |s| - 1 ==> RemoveAt(s, i)[j] == if j < i then s[j] else s[j + 1]
  {
    assert s == s[..i] + [s[i]] + s[i + 1..];
  }

  /** The placed items and the pool still to place. */
  datatype State<E> = State(sorted: seq<E>, remaining: seq<E>)

  /** A pick rule names a position of any non-empty pool. */
  ghost predicate ValidPick<E(!new)>(pick: (seq<E>, seq<E>) -> nat) {
    forall sorted: seq<E>, remaining: seq<E> :: |remaining| > 0 ==> pick(sorted, remaining) < |remaining|
  }

  /** One round: the picked item moves from the pool to the end of `sorted`. */
  function Advance<E(!new)>(st: State<E>, pick: (seq<E>, seq<E>) -> nat): (next: State<E>)
    requires ValidPick(pick) && |st.remaining| > 0
    ensures |next.sorted| == |st.sorted| + 1 && |next.remaining| == |st.remaining| - 1
  {
    var b := pick(st.sorted, st.remaining);
    State(st.sorted + [st.remaining[b]], RemoveAt(st.remaining, b))
  }

  /** `k` rounds. */
  function AdvanceN<E(!new)>(st: State<E>, k: nat, pick: (seq<E>, seq<E>) -> nat): (r: State<E>)
    requires ValidPick(pick) && k <= |st.remaining|
    ensures |r.sorted| == |st.sorted| + k && |r.remaining| == |st.remaining| - k
  {
    if k == 0 then st else Advance(AdvanceN(st, k - 1, pick), pick)
  }

  /** The items placed and still to place, counted with repetitions. */
  ghost function Inventory<E>(st: State<E>): multiset<E> {
    multiset(st.sorted) + multiset(st.remaining)
  }

  /** Round `k` appends the item picked from the pool left by round `k - 1`,
      removes it from the pool, and loses and adds nothing. */
  lemma AdvanceStep<E(!new)>(st: State<E>, k: nat, pick: (seq<E>, seq<E>) -> nat)
    requires ValidPick(pick) && 0 < k <= |st.remaining|
    ensures var prev := AdvanceN(st, k - 1, pick);
      var b := pick(prev.sorted, prev.remaining);
      && b < |prev.remaining|
      && AdvanceN(st, k, pick).sorted == prev.sorted + [prev.remaining[b]]
      && AdvanceN(st, k, pick).remaining == RemoveAt(prev.remaining, b)
  {
  }

  /** One round loses and adds nothing. */
  lemma AdvanceKeeps<E(!new)>(st: State<E>, pick: (seq<E>, seq<E>) -> nat)
    requires ValidPick(pick) && |st.remaining| > 0
    ensures Inventory(Advance(st, pick)) == Inventory(st)
  {
    RemoveAtContents(st.remaining, pick(st.sorted, st.remaining));
  }

  /** Any number of rounds only rearranges the items. */
  lemma AdvanceNPermutes<E(!new)>(st: State<E>, k: nat, pick: (seq<E>, seq<E>) -> nat)
    requires ValidPick(pick) && k <= |st.remaining|
    ensures Inventory(AdvanceN(st, k, pick)) == Inventory(st)
  {
    var cur := st;
    for i := 0 to k
      invariant cur == AdvanceN(st, i, pick)
      invariant Inventory(cur) == Inventory(st)
    {
      AdvanceKeeps(cur, pick);
      cur := Advance(cur, pick);
    }
  }

  lemma PrefixOfSnoc<E>(prev: seq<E>, cur: seq<E>, n: nat)
    requires |cur| == |prev| + 1 && cur[..|prev|] == prev && n <= |prev|
    ensures cur[..n] == prev[..n]
  {
  }

  /** Later rounds only append to what earlier rounds placed. */
  lemma {:induction false} AdvanceNExtends<E(!new)>(st: State<E>, k: nat, m: nat, pick: (seq<E>, seq<E>) -> nat)
    requires ValidPick(pick) && k <= m <= |st.remaining|
    ensures AdvanceN(st, m, pick).sorted[..|st.sorted| + k] == AdvanceN(st, k, pick).sorted
    decreases m
  {
    if k < m {
      AdvanceNExtends(st, k, m - 1, pick);
      AdvanceStep(st, m, pick);
      PrefixOfSnoc(AdvanceN(st, m - 1, pick).sorted, AdvanceN(st, m, pick).sorted, |st.sorted| + k);
    } else {
      assert AdvanceN(st, m, pick).sorted[..|st.sorted| + k] == AdvanceN(st, m, pick).sorted;
    }
  }

  /** Position `|st.sorted| + k` of the final placement holds the item picked in
      round `k + 1`, and everything before it is what the first `k` rounds
      placed. */
  lemma AdvanceNPosition<E(!new)>(st: State<E>, k: nat, pick: (seq<E>, seq<E>) -> nat)
    requires ValidPick(pick) && k < |st.remaining|
    ensures var all := AdvanceN(st, |st.remaining|, pick).sorted;
      var prev := AdvanceN(st, k, pick);
      var b := pick(prev.sorted, prev.remaining);
      && b < |prev.remaining|
      && all[..|st.sorted| + k] == prev.sorted
      && all[|st.sorted| + k] == prev.remaining[b]
  {
    var all := AdvanceN(st, |st.remaining|, pick).sorted;
    AdvanceNExtends(st, k + 1, |st.remaining|, pick);
    AdvanceStep(st, k + 1, pick);
    var prev := AdvanceN(st, k, pick);
    var next := AdvanceN(st, k + 1, pick).sorted;
    assert all[..|st.sorted| + k + 1] == next;
    assert all[..|st.sorted| + k] == next[..|st.sorted| + k];
    assert all[|st.sorted| + k] == next[|st.sorted| + k];
  }

  /** Before round `k + 1` the pool holds exactly the items not among the first
      `n == |st.sorted| + k` of the final placement. */
  lemma AdvanceNPool<E(!new)>(st: State<E>, k: nat, n: nat, pick: (seq<E>, seq<E>) -> nat)
    requires ValidPick(pick) && k < |st.remaining| && n == |st.sorted| + k
    ensures multiset(Fill(st, pick)[..n]) + multiset(AdvanceN(st, k, pick).remaining) == Inventory(st)
  {
    var prev := AdvanceN(st, k, pick);
    AdvanceNExtends(st, k, |st.remaining|, pick);
    AdvanceNPermutes(st, k, pick);
    assert AdvanceN(st, |st.remaining|, pick).sorted[..n] == prev.sorted;
    assert Inventory(prev) == multiset(prev.sorted) + multiset(prev.remaining);
  }

  /** The whole placement from `st`: every round run. */
  function Fill<E(!new)>(st: State<E>, pick: (seq<E>, seq<E>) -> nat): (r: seq<E>)
    requires ValidPick(pick)
    ensures |r| == |st.sorted| + |st.remaining|
  {
    AdvanceN(st, |st.remaining|, pick).sorted
  }

  /** From a single placed item: before position `p` is filled the pool holds
      exactly the items of `xs` not among the first `p` placed. */
  lemma FillPool<E(!new)>(xs: seq<E>, st: State<E>, p: nat, pick: (seq<E>, seq<E>) -> nat)
    requires ValidPick(pick) && |st.sorted| == 1 && 1 <= p <= |st.remaining|
    requires Inventory(st) == multiset(xs)
    ensures multiset(Fill(st, pick)[..p]) + multiset(AdvanceN(st, p - 1, pick).remaining) == multiset(xs)
  {
    AdvanceNPool(st, p - 1, p, pick);
    SameTotal(multiset(Fill(st, pick)[..p]), multiset(AdvanceN(st, p - 1, pick).remaining), Inventory(st), multiset(xs));
  }

  lemma SameTotal<E>(placed: multiset<E>, pool: multiset<E>, total: multiset<E>, all: multiset<E>)
    requires placed + pool == total && total == all
    ensures placed + pool == all
  {
  }

  /** From a single placed item: position `p` holds the item picked from the
      pool left before it, given the first `p` placed items. */
  lemma FillStep<E(!new)>(st: State<E>, p: nat, pick: (seq<E>, seq<E>) -> nat)
    requires ValidPick(pick) && |st.sorted| == 1 && 1 <= p <= |st.remaining|
    ensures var prev := AdvanceN(st, p - 1, pick);
      var r := Fill(st, pick);
      && |prev.remaining| > 0
      && r[..p] == prev.sorted
      && pick(prev.sorted, prev.remaining) < |prev.remaining|
      && r[p] == prev.remaining[pick(prev.sorted, prev.remaining)]
  {
    var all := AdvanceN(st, |st.remaining|, pick).sorted;
    assert Fill(st, pick) == all;
    AdvanceNPosition(st, p - 1, pick);
    assert |st.sorted| + (p - 1) == p;
  }
}
