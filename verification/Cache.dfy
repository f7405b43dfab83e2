/** The block cache of the chain (block.go): recent blocks and cumulative work, evicted least
    recently used first, with the recent main chain pinned. */
module Cache {
  import opened Seqs
  import opened Blocks

  const PROTECTED_BACK: nat := 100     // max(MaxReorgDepth, LWMAWindow + 10)
  const MIN_SLACK: nat := 64
  const DEFAULT_CAP: nat := 512
  const HARD_MAX_CAP: nat := 100_000

  /** The capacity chosen from the environment; `parsed` is 0 when unset or unreadable. */
  function CapFromEnv(parsed: int): (cap: nat)
    ensures PROTECTED_BACK + MIN_SLACK <= cap <= HARD_MAX_CAP
    ensures 164 <= parsed <= 100_000 ==> cap == parsed
    ensures parsed <= 0 ==> cap == 512
    ensures 0 < parsed < 164 ==> cap == 164
    ensures parsed > 100_000 ==> cap == 100_000
  {
    var cap := if parsed > 0 then parsed else DEFAULT_CAP;
    var capped := if cap > HARD_MAX_CAP then HARD_MAX_CAP else cap;
    if capped < PROTECTED_BACK + MIN_SLACK then PROTECTED_BACK + MIN_SLACK else capped
  }

  /** The part of the chain state that decides which entries are pinned. */
  datatype Pins = Pins(byHeight: map<nat, Hash>, height: nat) {
    ghost predicate Bounded() { forall h :: h in byHeight ==> h <= height }

    /** The lowest height that may be pinned. */
    ghost function Low(): nat { if height <= PROTECTED_BACK then 0 else height - PROTECTED_BACK }

    /** How many entries may be pinned. */
    ghost function Room(): nat { height - Low() + 1 }
  }

  /** A cached main-chain block within PROTECTED_BACK of the tip. */
  predicate Pinned(blocks: map<Hash, Block>, pins: Pins, k: Hash) {
    && k in blocks
    && blocks[k].height in pins.byHeight && pins.byHeight[blocks[k].height] == k
    && (pins.height <= PROTECTED_BACK || blocks[k].height >= pins.height - PROTECTED_BACK)
  }

  // ---------------------------------------------------------------- counting pinned entries

  lemma {:induction false} BoundedCard(s: set<nat>, lo: nat, n: nat)
    requires forall i :: i in s ==> lo <= i < lo + n
    ensures |s| <= n
  {
    if n == 0 {
      assert s == {};
    } else {
      BoundedCard(s - {lo + n - 1}, lo, n - 1);
    }
  }

  ghost function HeightsOf(blocks: map<Hash, Block>, s: set<Hash>): set<nat>
    requires s <= blocks.Keys
  {
    set k | k in s :: blocks[k].height
  }

  lemma {:induction false} HeightsCard(blocks: map<Hash, Block>, pins: Pins, s: set<Hash>)
    requires forall k :: k in s ==> Pinned(blocks, pins, k)
    ensures s <= blocks.Keys && |HeightsOf(blocks, s)| == |s|
  {
    if s != {} {
      var k :| k in s;
      HeightsCard(blocks, pins, s - {k});
      assert blocks[k].height !in HeightsOf(blocks, s - {k});
      assert HeightsOf(blocks, s) == HeightsOf(blocks, s - {k}) + {blocks[k].height};
    }
  }

  /** At most the last PROTECTED_BACK + 1 heights are pinned, however large the cache. */
  lemma PinnedCard(blocks: map<Hash, Block>, pins: Pins, s: set<Hash>)
    requires pins.Bounded() && forall k :: k in s ==> Pinned(blocks, pins, k)
    ensures |s| <= pins.Room() <= PROTECTED_BACK + 1
  {
    HeightsCard(blocks, pins, s);
    BoundedCard(HeightsOf(blocks, s), pins.Low(), pins.Room());
  }

  /** A duplicate-free list whose entries are pinned or lie in `walk` is short. */
  lemma CoveredLength(blocks: map<Hash, Block>, pins: Pins, s: seq<Hash>, walk: set<Hash>)
    requires pins.Bounded() && NoDup(s)
    requires forall k :: k in s ==> k in walk || Pinned(blocks, pins, k)
    ensures |s| <= |walk| + pins.Room()
  {
    NoDupCard(s);
    var all := set k | k in s;
    PinnedCard(blocks, pins, all - walk);
    assert all <= walk + (all - walk);
    CardMonotone(all, walk + (all - walk));
  }

  // ---------------------------------------------------------------- the recency list

  function IndexOf(s: seq<Hash>, k: Hash): (i: nat)
    ensures i <= |s| && (i < |s| ==> s[i] == k) && k !in s[..i]
    ensures i < |s| <==> k in s
  {
    if s == [] || s[0] == k then 0 else 1 + IndexOf(s[1..], k)
  }

  /** The list after an access to k: k in front, the others in their old order. */
  function Touched(s: seq<Hash>, k: Hash): (r: seq<Hash>) {
    var i := IndexOf(s, k);
    [k] + s[..i] + (if i < |s| then s[i + 1..] else [])
  }

  lemma TouchedNoDup(s: seq<Hash>, k: Hash)
    requires NoDup(s)
    ensures NoDup(Touched(s, k))
  {
    var i := IndexOf(s, k);
    var head, tail := s[..i], if i < |s| then s[i + 1..] else [];
    TailFacts(s, k, i);
    NoDupConcat(head, tail);
    NoDupConcat([k], head + tail);
    assert Touched(s, k) == [k] + (head + tail);
  }

  lemma TouchedFacts(s: seq<Hash>, k: Hash)
    requires NoDup(s)
    ensures NoDup(Touched(s, k)) && |Touched(s, k)| == if k in s then |s| else |s| + 1
    ensures forall x :: x in Touched(s, k) <==> x in s || x == k
  {
    TouchedNoDup(s, k);
    forall x ensures x in Touched(s, k) <==> x in s || x == k { TouchedMember(s, k, x); }
  }

  lemma TouchedMember(s: seq<Hash>, k: Hash, x: Hash)
    ensures x in Touched(s, k) <==> x in s || x == k
  {
    var i := IndexOf(s, k);
    if i < |s| {
      assert s == s[..i] + [k] + s[i + 1..];
    } else {
      assert s == s[..i];
    }
  }

  lemma TailFacts(s: seq<Hash>, k: Hash, i: nat)
    requires NoDup(s) && i <= |s| && (i < |s| ==> s[i] == k) && k !in s[..i]
    ensures var tail := if i < |s| then s[i + 1..] else [];
      NoDup(s[..i]) && NoDup(tail) && Disjoint(s[..i], tail) && k !in tail
  {
    var tail := if i < |s| then s[i + 1..] else [];
    if i < |s| {
      assert s == (s[..i] + [k]) + tail;
      NoDupConcat(s[..i] + [k], tail);
      NoDupConcat(s[..i], [k]);
    } else {
      assert s[..i] == s;
    }
  }

  /** x has been used more recently than y. */
  ghost predicate Ahead(s: seq<Hash>, x: Hash, y: Hash) {
    exists i: nat, j: nat :: i < j < |s| && s[i] == x && s[j] == y
  }

  /** Where an entry other than k is after an access to k. */
  lemma TouchedAt(s: seq<Hash>, k: Hash, i: nat) returns (n: nat)
    requires i < |s| && s[i] != k
    ensures n == (if i < IndexOf(s, k) then i + 1 else i) && 0 < n < |Touched(s, k)| && Touched(s, k)[n] == s[i]
  {
    n := if i < IndexOf(s, k) then i + 1 else i;
  }

  lemma StaysAhead(s: seq<Hash>, k: Hash, x: Hash, y: Hash)
    requires k != y && Ahead(s, x, y)
    ensures Ahead(Touched(s, k), x, y)
  {
    var i: nat, j: nat :| i < j < |s| && s[i] == x && s[j] == y;
    var n := TouchedAt(s, k, j);
    if x == k {
      assert Touched(s, k)[0] == k;
    } else {
      var m := TouchedAt(s, k, i);
    }
  }

  /** An access to k overtakes every other entry, and leaves their order. */
  lemma TouchOrder(s: seq<Hash>, k: Hash, y: Hash)
    requires k != y && y in s
    ensures Ahead(Touched(s, k), k, y)
    ensures forall x :: Ahead(s, x, y) ==> Ahead(Touched(s, k), x, y)
  {
    var j: nat :| j < |s| && s[j] == y;
    var n := TouchedAt(s, k, j);
    assert Touched(s, k)[0] == k;
    forall x | Ahead(s, x, y) ensures Ahead(Touched(s, k), x, y) { StaysAhead(s, k, x, y); }
  }

  ghost predicate AheadOk(lru: seq<Hash>, blocks: map<Hash, Block>, pins: Pins, i: nat, walk: set<Hash>)
    requires i <= |lru|
  {
    forall j :: 0 <= j < i ==> lru[j] in walk || Pinned(blocks, pins, lru[j])
  }

  /** Only entries of `walk` and pinned entries have been used more recently than k. */
  ghost predicate Recent(lru: seq<Hash>, blocks: map<Hash, Block>, pins: Pins, k: Hash, walk: set<Hash>) {
    exists i: nat :: i < |lru| && lru[i] == k && AheadOk(lru, blocks, pins, i, walk)
  }

  lemma TouchedFrom(s: seq<Hash>, k: Hash, j: nat)
    requires 1 <= j < |Touched(s, k)|
    ensures var i := if j <= IndexOf(s, k) then j - 1 else j; i < |s| && Touched(s, k)[j] == s[i]
  {
  }

  lemma TouchKeepsRecent(
    lru: seq<Hash>, blocks: map<Hash, Block>, pins: Pins, keep: Hash, walk: set<Hash>, k: Hash)
    requires NoDup(lru) && Recent(lru, blocks, pins, keep, walk) && (k in walk || k == keep || Pinned(blocks, pins, k))
    ensures Recent(Touched(lru, k), blocks, pins, keep, walk)
  {
    var r, p := Touched(lru, k), IndexOf(lru, k);
    if k == keep {
      assert r[0] == keep && AheadOk(r, blocks, pins, 0, walk);
    } else {
      var i: nat :| i < |lru| && lru[i] == keep && AheadOk(lru, blocks, pins, i, walk);
      var n := if i < p then i + 1 else i;
      assert r[n] == keep;
      assert AheadOk(r, blocks, pins, n, walk) by {
        forall j | 1 <= j < n ensures r[j] in walk || Pinned(blocks, pins, r[j]) { TouchedFrom(lru, k, j); }
      }
    }
  }

  /** Moving a pinned entry from the back to the front. */
  lemma RotateKeepsRecent(lru: seq<Hash>, blocks: map<Hash, Block>, pins: Pins, keep: Hash, walk: set<Hash>)
    requires lru != [] && NoDup(lru) && Pinned(blocks, pins, lru[|lru| - 1])
    requires Recent(lru, blocks, pins, keep, walk)
    ensures Recent([lru[|lru| - 1]] + lru[..|lru| - 1], blocks, pins, keep, walk)
  {
    var r := [lru[|lru| - 1]] + lru[..|lru| - 1];
    var i: nat :| i < |lru| && lru[i] == keep && AheadOk(lru, blocks, pins, i, walk);
    var n := if i == |lru| - 1 then 0 else i + 1;
    assert r[n] == keep && AheadOk(r, blocks, pins, n, walk);
  }

  /** Evicting an unpinned entry from the back of an overfull list never hits a recent one. */
  lemma EvictKeepsRecent(
    lru: seq<Hash>, blocks: map<Hash, Block>, pins: Pins, keep: Hash, walk: set<Hash>, cap: nat)
    requires pins.Bounded() && NoDup(lru) && |lru| > cap > |walk| + pins.Room()
    requires Recent(lru, blocks, pins, keep, walk)
    ensures Recent(lru[..|lru| - 1], blocks - {lru[|lru| - 1]}, pins, keep, walk)
  {
    var r, b := lru[..|lru| - 1], blocks - {lru[|lru| - 1]};
    var i: nat :| i < |lru| && lru[i] == keep && AheadOk(lru, blocks, pins, i, walk);
    NoDupPrefix(lru, i);
    CoveredLength(blocks, pins, lru[..i], walk);
    assert r[i] == keep;
    NoDupPrefix(lru, |lru| - 1);
    forall j | 0 <= j < i ensures lru[j] in walk || Pinned(b, pins, lru[j]) { assert lru[j] != lru[|lru| - 1]; }
    assert AheadOk(r, b, pins, i, walk);
  }

  /** The contents of the cache. */
  datatype View = View(blocks: map<Hash, Block>, workAt: map<Hash, nat>, lru: seq<Hash>) {
    /** Every cached block or work entry is on the recency list, once. */
    ghost predicate Shape() {
      && NoDup(lru)
      && (forall k :: k in blocks ==> k in lru)
      && (forall k :: k in workAt ==> k in lru)
    }

    function Back(): Hash
      requires lru != []
    {
      lru[|lru| - 1]
    }

    /** One step of the trimming loop. */
    function TrimStep(pins: Pins): View
      requires lru != []
    {
      if Pinned(blocks, pins, Back()) then this.(lru := [Back()] + lru[..|lru| - 1])
      else View(blocks - {Back()}, workAt - {Back()}, lru[..|lru| - 1])
    }
  }

  /** v keeps a part of v0: no pinned entry is gone and no surviving entry has changed. */
  ghost predicate Trimmed(v0: View, v: View, pins: Pins) {
    && (forall k :: k in v.blocks ==> k in v0.blocks && v.blocks[k] == v0.blocks[k])
    && (forall k :: k in v.workAt ==> k in v0.workAt && v.workAt[k] == v0.workAt[k])
    && (forall k :: k in v.lru ==> k in v0.lru)
    && (forall k :: k in v.lru && k in v0.blocks ==> k in v.blocks)
    && (forall k :: k in v.lru && k in v0.workAt ==> k in v.workAt)
    && (forall k :: Pinned(v0.blocks, pins, k) ==> k in v.blocks)
  }

  /** What is overtaken by x is dropped before x is: entries go from the back, pinned ones never. */
  ghost predicate OrderKept(v0: View, v: View, pins: Pins) {
    forall x, y :: Ahead(v0.lru, x, y) && y in v.lru && !Pinned(v0.blocks, pins, y) ==> Ahead(v.lru, x, y)
  }

  lemma AheadStep(v: View, pins: Pins, x: Hash, y: Hash)
    requires v.Shape() && Ahead(v.lru, x, y) && y in v.TrimStep(pins).lru && !Pinned(v.blocks, pins, y)
    ensures Ahead(v.TrimStep(pins).lru, x, y)
  {
    var s, t := v.lru, v.TrimStep(pins).lru;
    var i: nat, j: nat :| i < j < |s| && s[i] == x && s[j] == y;
    if Pinned(v.blocks, pins, v.Back()) {
      assert t[i + 1] == x && t[j + 1] == y;
    } else {
      var k: nat :| k < |t| && t[k] == y;
      NoDupPairs(s);
      assert s[k] == s[j];
      assert t[i] == x && t[j] == y;
    }
  }

  lemma StepOrder(v0: View, v: View, pins: Pins)
    requires v.Shape() && v.lru != [] && Trimmed(v0, v, pins) && OrderKept(v0, v, pins)
    ensures OrderKept(v0, v.TrimStep(pins), pins)
  {
    var w := v.TrimStep(pins);
    StepShape(v, pins);
    forall x, y | Ahead(v0.lru, x, y) && y in w.lru && !Pinned(v0.blocks, pins, y) ensures Ahead(w.lru, x, y) {
      assert Ahead(v.lru, x, y);
      AheadStep(v, pins, x, y);
    }
  }

  lemma StepShape(v: View, pins: Pins)
    requires v.Shape() && v.lru != []
    ensures v.TrimStep(pins).Shape()
    ensures forall k :: k in v.TrimStep(pins).lru ==> k in v.lru
    ensures forall k :: k in v.lru ==> k in v.TrimStep(pins).lru || (k == v.Back() && !Pinned(v.blocks, pins, k))
  {
    var front := v.lru[..|v.lru| - 1];
    assert v.lru == front + [v.Back()];
    NoDupConcat(front, [v.Back()]);
    NoDupConcat([v.Back()], front);
  }

  lemma StepTrimmed(v0: View, v: View, pins: Pins)
    requires v.Shape() && v.lru != [] && Trimmed(v0, v, pins)
    ensures Trimmed(v0, v.TrimStep(pins), pins)
  {
    StepShape(v, pins);
    var w := v.TrimStep(pins);
    forall k | Pinned(v0.blocks, pins, k) ensures k in w.blocks { assert Pinned(v.blocks, pins, k); }
  }

  /** What the trimming loop maintains: v is a trimmed v0 whose first m entries are pinned,
      and keep has not been dropped. */
  ghost predicate LoopInv(v0: View, v: View, pins: Pins, m: nat, keep: Hash, walk: set<Hash>, cap: nat) {
    && v.Shape() && Trimmed(v0, v, pins) && OrderKept(v0, v, pins)
    && |v.lru| <= |v0.lru| && (|v.lru| < |v0.lru| ==> |v.lru| >= cap)
    && m <= |v.lru| && AheadOk(v.lru, v.blocks, pins, m, {})
    && (Recent(v0.lru, v0.blocks, pins, keep, walk) && |walk| + pins.Room() < cap ==>
          Recent(v.lru, v.blocks, pins, keep, walk))
  }

  lemma StepRecent(v: View, pins: Pins, keep: Hash, walk: set<Hash>, cap: nat)
    requires pins.Bounded() && v.Shape() && |v.lru| > cap > |walk| + pins.Room()
    requires Recent(v.lru, v.blocks, pins, keep, walk)
    ensures Recent(v.TrimStep(pins).lru, v.TrimStep(pins).blocks, pins, keep, walk)
  {
    if Pinned(v.blocks, pins, v.Back()) {
      RotateKeepsRecent(v.lru, v.blocks, pins, keep, walk);
    } else {
      EvictKeepsRecent(v.lru, v.blocks, pins, keep, walk, cap);
    }
  }

  /** How many leading entries are known to be pinned after a step. */
  function StepPrefix(v: View, pins: Pins, m: nat): nat
    requires v.lru != []
  {
    if Pinned(v.blocks, pins, v.Back()) then m + 1 else m
  }

  lemma StepPrefixPinned(v: View, pins: Pins, m: nat)
    requires v.Shape() && m < |v.lru| && AheadOk(v.lru, v.blocks, pins, m, {})
    ensures StepPrefix(v, pins, m) <= |v.TrimStep(pins).lru|
    ensures AheadOk(v.TrimStep(pins).lru, v.TrimStep(pins).blocks, pins, StepPrefix(v, pins, m), {})
  {
    var w := v.TrimStep(pins);
    NoDupPrefix(v.lru, |v.lru| - 1);
    forall j | 0 <= j < StepPrefix(v, pins, m) ensures Pinned(w.blocks, pins, w.lru[j]) {
      if Pinned(v.blocks, pins, v.Back()) {
        assert j > 0 ==> w.lru[j] == v.lru[j - 1];
      } else {
        assert v.lru[j] != v.Back();
      }
    }
  }

  lemma LoopStep(v0: View, v: View, pins: Pins, m: nat, keep: Hash, walk: set<Hash>, cap: nat)
    requires pins.Bounded() && LoopInv(v0, v, pins, m, keep, walk, cap)
    requires |v.lru| > cap >= PROTECTED_BACK + MIN_SLACK
    ensures LoopInv(v0, v.TrimStep(pins), pins, StepPrefix(v, pins, m), keep, walk, cap)
    ensures StepPrefix(v, pins, m) <= PROTECTED_BACK + 1
  {
    PinnedPrefix(v, pins, m);
    StepShape(v, pins);
    StepTrimmed(v0, v, pins);
    StepOrder(v0, v, pins);
    StepPrefixPinned(v, pins, m);
    PinnedPrefix(v.TrimStep(pins), pins, StepPrefix(v, pins, m));
    if Recent(v.lru, v.blocks, pins, keep, walk) && |walk| + pins.Room() < cap {
      StepRecent(v, pins, keep, walk, cap);
    }
  }

  lemma PinnedPrefix(v: View, pins: Pins, m: nat)
    requires pins.Bounded() && v.Shape() && m <= |v.lru| && AheadOk(v.lru, v.blocks, pins, m, {})
    ensures m <= PROTECTED_BACK + 1
  {
    NoDupPrefix(v.lru, m);
    CoveredLength(v.blocks, pins, v.lru[..m], {});
  }

  class BlockCache {
    var view: View
    const cap: nat

    constructor (cap: nat)
      ensures view == View(map[], map[], []) && this.cap == cap
    {
      view := View(map[], map[], []);
      this.cap := cap;
    }

    ghost predicate Valid()
      reads this
    {
      cap >= PROTECTED_BACK + MIN_SLACK && view.Shape()
    }

    method Touch(k: Hash)
      requires Valid()
      modifies this
      ensures Valid() && view == old(view).(lru := Touched(old(view).lru, k))
    {
      TouchedFacts(view.lru, k);
      view := view.(lru := Touched(view.lru, k));
    }

    method AddBlock(k: Hash, b: Block)
      requires Valid()
      modifies this
      ensures Valid() && view == View(old(view).blocks[k := b], old(view).workAt, Touched(old(view).lru, k)) && k in view.lru
    {
      TouchedFacts(view.lru, k);
      view := View(view.blocks[k := b], view.workAt, Touched(view.lru, k));
    }

    method AddWork(k: Hash, work: nat)
      requires Valid()
      modifies this
      ensures Valid() && view == View(old(view).blocks, old(view).workAt[k := work], Touched(old(view).lru, k))
    {
      TouchedFacts(view.lru, k);
      view := View(view.blocks, view.workAt[k := work], Touched(view.lru, k));
    }

    /** Records work for an entry without counting as an access. */
    method SetWork(k: Hash, work: nat)
      requires Valid() && k in view.lru
      modifies this
      ensures Valid() && view == old(view).(workAt := old(view).workAt[k := work])
    {
      view := view.(workAt := view.workAt[k := work]);
    }

    /** Replaces the recorded work of every entry. */
    method ReplaceWork(work: map<Hash, nat>)
      requires Valid() && work.Keys == view.workAt.Keys
      modifies this
      ensures Valid() && view == old(view).(workAt := work)
    {
      view := view.(workAt := work);
    }

    method Forget(k: Hash)
      requires Valid()
      modifies this
      ensures Valid() && k !in view.lru && (forall x :: x in old(view).lru && x != k ==> x in view.lru)
      ensures view.blocks == old(view).blocks - {k} && view.workAt == old(view).workAt - {k}
    {
      TouchedFacts(view.lru, k);
      var rest := Touched(view.lru, k)[1..];
      NoDupConcat([k], rest);
      assert Touched(view.lru, k) == [k] + rest;
      view := View(view.blocks - {k}, view.workAt - {k}, rest);
    }

    /** Evicts down to the capacity and no further. It terminates because at most
        PROTECTED_BACK + 1 entries are pinned, drops no pinned entry, changes no surviving
        entry, drops the others in order of their last use, and so drops no entry that only
        `walk` and pinned entries have overtaken when `walk` is small. */
    method Trim(pins: Pins, ghost keep: Hash, ghost walk: set<Hash>)
      requires Valid() && pins.Bounded()
      modifies this
      ensures Valid() && |view.lru| == if |old(view).lru| > cap then cap else |old(view).lru|
      ensures Trimmed(old(view), view, pins) && OrderKept(old(view), view, pins)
      ensures Recent(old(view).lru, old(view).blocks, pins, keep, walk) && |walk| + pins.Room() < cap ==>
        Recent(view.lru, view.blocks, pins, keep, walk)
    {
      ghost var m: nat := 0;
      while |view.lru| > cap || |view.blocks.Keys| > cap
        invariant LoopInv(old(view), view, pins, m, keep, walk, cap)
        decreases |view.lru|, PROTECTED_BACK + 1 - m
      {
        BlocksFewerThanLru(view);
        LoopStep(old(view), view, pins, m, keep, walk, cap);
        m := StepPrefix(view, pins, m);
        view := view.TrimStep(pins);
      }
      BlocksFewerThanLru(view);
    }
  }

  lemma BlocksFewerThanLru(v: View)
    requires v.Shape()
    ensures |v.blocks.Keys| <= |v.lru|
  {
    NoDupCard(v.lru);
    CardMonotone(v.blocks.Keys, set k | k in v.lru);
  }
}
