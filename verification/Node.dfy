/** The node: the chain and the mempool side by side. A chain change and the mempool updates it
    causes are separate steps, and a transaction may be admitted between any two of them. */
module Node {
  import opened Seqs
  import opened Blocks
  import opened ChainModel
  import opened Fork
  import opened Pool
  import opened Queue
  import Reorg
  import Mempool

  // ---------------------------------------------------------------- states and steps

  /** One call into the mempool after a chain change. */
  datatype Update = Disconnect(b: Block) | Connect(b: Block) | Expire

  /** A transaction being admitted: its first `checked` key images were found unspent. */
  datatype Adding = Adding(tx: Tx, checked: nat)

  /** `pending` are the updates the last chain change still has to make; while there are any,
      the daemon's lock keeps the chain from changing again. While `adding` is set, the
      mempool's lock keeps updates out. */
  datatype Node = Node(chain: State, pool: Contents, pending: seq<Update>, adding: Option<Adding>)

  datatype Step =
    | Chain(event: Event)
    | Apply(ids: set<Hash>)            // ids: what expiry leaves
    | Begin(tx: Tx)
    | Check
    | Finish(admit: bool, ids: set<Hash>)  // ids: what eviction leaves
    | Drop(ids: set<Hash>)             // explicit removals

  ghost function Disconnects(p: seq<Block>, n: nat): seq<Update>
    requires n <= |p|
  {
    seq(|p| - n, i requires 0 <= i < |p| - n => Disconnect(p[|p| - 1 - i]))
  }

  ghost function Connects(q: seq<Block>, n: nat): seq<Update>
    requires n <= |q|
  {
    seq(|q| - n, i requires 0 <= i < |q| - n => Connect(q[n + i]))
  }

  /** The mempool updates after b has become the tip: both sides of the reorganisation, or only
      the tip when it extends the old tip or the branch is too long to walk. */
  ghost function Updates(s: State, b: Block): seq<Update>
    requires Inv(s) && Attached(s, b)
  {
    if b.prev == s.tip || BranchLength(s, b) >= Reorg.MAX_WALK then [Connect(b), Expire]
    else Disconnects(Main(s), Shared(s, b)) + Connects(NewPath(s, b), Shared(s, b)) + [Expire]
  }

  ghost function Applied(pool: Contents, u: Update, spent: set<KeyImage>, ids: set<Hash>): Contents {
    match u
    case Disconnect(b) => Disconnected(pool, b.txs, spent)
    case Connect(b) => Connected(pool, b.txs)
    case Expire => Mempool.OnlyIds(pool, ids)
  }

  ghost predicate Next(n: Node, e: Step, n': Node)
    requires Inv(n.chain)
  {
    match e
    case Chain(event) =>
      && n.pending == [] && ChainModel.Next(n.chain, event, n'.chain)
      && n' == n.(chain := n'.chain, pending := if event.Adopt? then Updates(n.chain, event.b) else [])
    case Apply(ids) =>
      && n.pending != [] && n.adding.None?
      && n' == n.(pool := Applied(n.pool, n.pending[0], Spent(n.chain), ids), pending := n.pending[1..])
    case Begin(tx) => n.adding.None? && !tx.IsCoinbase() && n' == n.(adding := Some(Adding(tx, 0)))
    case Check =>
      && n.adding.Some? && n.adding.value.checked < |n.adding.value.tx.images|
      && n' == n.(adding := if n.adding.value.tx.images[n.adding.value.checked] in Spent(n.chain) then None
                            else Some(n.adding.value.(checked := n.adding.value.checked + 1)))
    case Finish(admit, ids) =>
      && n.adding.Some? && n.adding.value.checked == |n.adding.value.tx.images|
      && var tx := n.adding.value.tx;
      && (admit ==> tx.id !in n.pool && !Mempool.Conflicting(n.pool, tx))
      && var rest := Mempool.OnlyIds(n.pool, ids);
      && n' == n.(adding := None, pool := if admit then rest[tx.id := tx] else rest)
    case Drop(ids) => n.adding.None? && n' == n.(pool := Mempool.OnlyIds(n.pool, ids))
  }

  // ---------------------------------------------------------------- the invariant

  /** The key images of the blocks still to be connected. */
  ghost function PendingImages(us: seq<Update>): set<KeyImage> {
    if us == [] then {}
    else PendingImages(us[1..]) + if us[0].Connect? then Elements(us[0].b.Images()) else {}
  }

  /** Every image the admission has found unspent is unspent, or about to be cleared. */
  ghost predicate CheckedOk(a: Adding, spent: set<KeyImage>, pending: set<KeyImage>) {
    a.checked <= |a.tx.images| &&
    forall j :: 0 <= j < a.checked && a.tx.images[j] in spent ==> a.tx.images[j] in pending
  }

  /** The pool, and what an admission has checked, is free of spent images but for those about to
      be cleared and those in `missed`. */
  ghost predicate NodeInv(n: Node, missed: set<KeyImage>) {
    && Inv(n.chain)
    && CleanBut(n.pool, Spent(n.chain), PendingImages(n.pending) + missed)
    && (n.adding.Some? ==> CheckedOk(n.adding.value, Spent(n.chain), PendingImages(n.pending) + missed))
  }

  lemma {:induction false} PendingOf(us: seq<Update>, i: nat, x: KeyImage)
    requires i < |us| && us[i].Connect? && x in us[i].b.Images()
    ensures x in PendingImages(us)
  {
    if i > 0 { PendingOf(us[1..], i - 1, x); }
  }

  lemma SpentBelowFork(s: State, b: Block, k: nat, x: KeyImage)
    requires Inv(s) && Attached(s, b) && k < Shared(s, b) && x in NewPath(s, b)[k].Images()
    ensures x in Spent(s)
  {
    var p, q, n := Main(s), NewPath(s, b), Shared(s, b);
    assert q[k] == q[..n][k] == p[..n][k] == p[k];
    BlockImagesInChain(p, k, x);
  }

  /** On a tip extension the only new block is b. */
  lemma ExtensionBlock(s: State, b: Block, k: nat)
    requires Inv(s) && Attached(s, b) && b.prev == s.tip && Shared(s, b) <= k < |NewPath(s, b)|
    ensures NewPath(s, b)[k] == b
  {
    var p := Main(s);
    if b.height > 0 {
      assert NewPath(s, b) == p + [b];
      assert p[..|p|] == p;
      CommonAtLeast(p, p + [b], |p|);
    }
  }

  lemma ConnectsPending(d: seq<Update>, q: seq<Block>, n: nat, k: nat, x: KeyImage)
    requires n <= k < |q| && x in q[k].Images()
    ensures x in PendingImages(d + Connects(q, n) + [Expire])
  {
    var us := d + Connects(q, n) + [Expire];
    assert us[|d| + (k - n)] == Connect(q[k]);
    PendingOf(us, |d| + (k - n), x);
  }

  /** Whatever the switch newly spends is spent by a block it connects. */
  lemma NewlySpent(s: State, b: Block, x: KeyImage)
    requires Inv(s) && Attached(s, b) && x in ChainImages(NewPath(s, b)) && x !in Spent(s)
    requires b.prev == s.tip || BranchLength(s, b) < Reorg.MAX_WALK
    ensures x in PendingImages(Updates(s, b))
  {
    var k := ChainImageHasBlock(NewPath(s, b), x);
    if k < Shared(s, b) {
      SpentBelowFork(s, b, k, x);
    } else if b.prev == s.tip {
      ExtensionBlock(s, b, k);
      PendingOf([Connect(b), Expire], 0, x);
    } else {
      ConnectsPending(Disconnects(Main(s), Shared(s, b)), NewPath(s, b), Shared(s, b), k, x);
    }
  }

  /** The switch is beyond the reach of the mempool update's walk. */
  ghost predicate Beyond(s: State, b: Block)
    requires Inv(s) && Attached(s, b)
  {
    b.prev != s.tip && BranchLength(s, b) >= Reorg.MAX_WALK
  }

  /** The images the switch to b newly spends in blocks other than b. */
  ghost function Skipped(s: State, b: Block): set<KeyImage>
    requires Inv(s) && Attached(s, b)
  {
    Elements(ChainImages(NewPath(s, b))) - Spent(s) - Elements(b.Images())
  }

  /** The newly spent images that the mempool is not told of. */
  ghost function Missed(s: State, e: Event): set<KeyImage> {
    if Inv(s) && e.Adopt? && Attached(s, e.b) && Beyond(s, e.b) then Skipped(s, e.b) else {}
  }

  lemma SpentAfter(s: State, e: Event, s': State, x: KeyImage)
    requires Inv(s) && ChainModel.Next(s, e, s')
    ensures Inv(s')
    ensures x in Spent(s') ==> x in Spent(s) || x in Missed(s, e) || (e.Adopt? && x in PendingImages(Updates(s, e.b)))
  {
    ChainModel.NextInv(s, e, s');
    match e
    case Refuse =>
    case Side(b) =>
    case Adopt(b) =>
      if x in Spent(s') && x !in Spent(s) {
        if !Beyond(s, b) {
          NewlySpent(s, b, x);
        } else if x in b.Images() {
          PendingOf([Connect(b), Expire], 0, x);
        }
      }
    case Truncate(k) =>
      if x in Spent(s') {
        var i := ChainImageHasBlock(Main(s'), x);
        assert Main(s')[i] == Main(s)[i];
        BlockImagesInChain(Main(s), i, x);
      }
  }

  ghost function UpdatesOf(s: State, e: Event): seq<Update>
    requires Inv(s) && (e.Adopt? ==> Attached(s, e.b))
  {
    if e.Adopt? then Updates(s, e.b) else []
  }

  lemma SpentGrows(s: State, e: Event, s': State)
    requires Inv(s) && ChainModel.Next(s, e, s')
    ensures Inv(s') && Spent(s') <= Spent(s) + (PendingImages(UpdatesOf(s, e)) + Missed(s, e))
  {
    ChainModel.NextInv(s, e, s');
    forall x | x in Spent(s') ensures x in Spent(s) + (PendingImages(UpdatesOf(s, e)) + Missed(s, e)) { SpentAfter(s, e, s', x); }
  }

  lemma CleanAfter(pool: Contents, spent: set<KeyImage>, missed: set<KeyImage>, spent': set<KeyImage>, pending: set<KeyImage>, more: set<KeyImage>)
    requires CleanBut(pool, spent, {} + missed) && spent' <= spent + (pending + more)
    ensures CleanBut(pool, spent', pending + (missed + more))
  {
  }

  lemma CheckedAfter(a: Adding, spent: set<KeyImage>, missed: set<KeyImage>, spent': set<KeyImage>, pending: set<KeyImage>, more: set<KeyImage>)
    requires CheckedOk(a, spent, {} + missed) && spent' <= spent + (pending + more)
    ensures CheckedOk(a, spent', pending + (missed + more))
  {
  }

  lemma ChainStepInv(n: Node, missed: set<KeyImage>, e: Event, n': Node)
    requires NodeInv(n, missed) && Next(n, Chain(e), n')
    ensures NodeInv(n', missed + Missed(n.chain, e))
  {
    SpentGrows(n.chain, e, n'.chain);
    var pending, more := PendingImages(UpdatesOf(n.chain, e)), Missed(n.chain, e);
    CleanAfter(n.pool, Spent(n.chain), missed, Spent(n'.chain), pending, more);
    if n.adding.Some? { CheckedAfter(n.adding.value, Spent(n.chain), missed, Spent(n'.chain), pending, more); }
  }

  lemma ApplyStepInv(n: Node, missed: set<KeyImage>, ids: set<Hash>, n': Node)
    requires NodeInv(n, missed) && Next(n, Apply(ids), n')
    ensures NodeInv(n', missed)
  {
    var u, spent, pending := n.pending[0], Spent(n.chain), PendingImages(n.pending) + missed;
    match u
    case Disconnect(b) => DisconnectedClean(n.pool, b.txs, spent, pending);
    case Connect(b) => ConnectedClean(n.pool, b.txs, spent, pending);
    case Expire =>
  }

  ghost function MissedAt(n: Node, e: Step): set<KeyImage> {
    if e.Chain? then Missed(n.chain, e.event) else {}
  }

  /** Every step keeps the invariant, wherever it falls between the others. */
  lemma StepInv(n: Node, missed: set<KeyImage>, e: Step, n': Node)
    requires NodeInv(n, missed) && Next(n, e, n')
    ensures NodeInv(n', missed + MissedAt(n, e))
  {
    match e
    case Chain(event) => ChainStepInv(n, missed, event, n');
    case Apply(ids) =>
      ApplyStepInv(n, missed, ids, n');
      assert missed + {} == missed;
    case Begin(tx) =>
    case Check =>
    case Finish(admit, ids) =>
    case Drop(ids) =>
  }

  // ---------------------------------------------------------------- runs

  ghost predicate StepAt(ns: seq<Node>, es: seq<Step>, i: nat)
    requires i < |es| && |ns| == |es| + 1
  {
    Inv(ns[i].chain) ==> Next(ns[i], es[i], ns[i + 1])
  }

  ghost predicate Run(ns: seq<Node>, es: seq<Step>) {
    |ns| == |es| + 1 && forall i: nat {:trigger StepAt(ns, es, i)} :: i < |es| ==> StepAt(ns, es, i)
  }

  /** All that the mempool was not told of in the first i steps. */
  ghost function MissedBy(ns: seq<Node>, es: seq<Step>, i: nat): set<KeyImage>
    requires i <= |es| < |ns|
  {
    if i == 0 then {} else MissedBy(ns, es, i - 1) + MissedAt(ns[i - 1], es[i - 1])
  }

  lemma {:induction false} InvOnRuns(ns: seq<Node>, es: seq<Step>, i: nat)
    requires Run(ns, es) && NodeInv(ns[0], {}) && i < |ns|
    ensures NodeInv(ns[i], MissedBy(ns, es, i))
  {
    if i > 0 {
      InvOnRuns(ns, es, i - 1);
      assert StepAt(ns, es, i - 1);
      StepInv(ns[i - 1], MissedBy(ns, es, i - 1), es[i - 1], ns[i]);
    }
  }

  /** The step switches to no branch beyond the reach of the walk. */
  ghost predicate WithinReach(n: Node, e: Step) {
    e.Chain? && e.event.Adopt? && Inv(n.chain) && Attached(n.chain, e.event.b) ==> !Beyond(n.chain, e.event.b)
  }

  lemma {:induction false} NothingMissed(ns: seq<Node>, es: seq<Step>, i: nat)
    requires i <= |es| < |ns| && forall k :: 0 <= k < i ==> WithinReach(ns[k], es[k])
    ensures MissedBy(ns, es, i) == {}
  {
    if i > 0 { NothingMissed(ns, es, i - 1); }
  }

  /** The step adopts no branch of more than cap blocks. */
  ghost predicate Limited(n: Node, e: Step, cap: nat) {
    e.Chain? && e.event.Adopt? && Inv(n.chain) && Attached(n.chain, e.event.b) ==> BranchLength(n.chain, e.event.b) <= cap
  }

  /** On every run of chain changes, mempool updates and admissions, however they interleave,
      whenever no update is pending, every spent image the pool uses is one that a switch beyond
      the walk's reach spent unannounced; without such a switch it uses none. */
  lemma PoolCleanOnRuns(ns: seq<Node>, es: seq<Step>, i: nat)
    requires Run(ns, es) && NodeInv(ns[0], {}) && i < |ns| && ns[i].pending == []
    ensures Inv(ns[i].chain) && CleanBut(ns[i].pool, Spent(ns[i].chain), MissedBy(ns, es, i))
    ensures (forall k :: 0 <= k < i ==> WithinReach(ns[k], es[k])) ==> Clean(ns[i].pool, Spent(ns[i].chain))
  {
    InvOnRuns(ns, es, i);
    assert PendingImages(ns[i].pending) + MissedBy(ns, es, i) == MissedBy(ns, es, i);
    if forall k :: 0 <= k < i ==> WithinReach(ns[k], es[k]) { NothingMissed(ns, es, i); }
  }

  /** A node whose cache holds fewer blocks than the walk visits adopts no longer branch, so its
      pool is free of spent images on every run, whenever no update is pending. */
  lemma PoolCleanInSmallCache(ns: seq<Node>, es: seq<Step>, i: nat, cap: nat)
    requires Run(ns, es) && NodeInv(ns[0], {}) && i < |ns| && ns[i].pending == []
    requires cap < Reorg.MAX_WALK && forall k :: 0 <= k < |es| ==> Limited(ns[k], es[k], cap)
    ensures Inv(ns[i].chain) && Clean(ns[i].pool, Spent(ns[i].chain))
  {
    forall k | 0 <= k < i ensures WithinReach(ns[k], es[k]) { assert Limited(ns[k], es[k], cap); }
    PoolCleanOnRuns(ns, es, i);
  }

  // ---------------------------------------------------------------- the daemon's update

  ghost function AppliedAll(pool: Contents, us: seq<Update>, spent: set<KeyImage>, ids: set<Hash>): Contents {
    if us == [] then pool
    else Applied(AppliedAll(pool, us[..|us| - 1], spent, ids), us[|us| - 1], spent, ids)
  }

  lemma AppliedTip(pool: Contents, b: Block, spent: set<KeyImage>, ids: set<Hash>)
    ensures AppliedAll(pool, [Connect(b), Expire], spent, ids) == Mempool.OnlyIds(Connected(pool, b.txs), ids)
  {
    assert [Connect(b), Expire][..1] == [Connect(b)] && [Connect(b)][..0] == [];
    assert AppliedAll(pool, [Connect(b)], spent, ids) == Connected(pool, b.txs);
  }

  /** No transaction that outlives the connected block and expiry uses one of the images. */
  ghost predicate NoneLeft(pool: Contents, txs: seq<Tx>, ids: set<Hash>, images: set<KeyImage>) {
    forall id, x :: id in ids && Survives(pool, txs, id) && x in pool[id].images ==> x !in images
  }

  /** What connecting one block and expiry leave in a pool clean of earlier spends. */
  lemma LeftSpent(pool: Contents, txs: seq<Tx>, ids: set<Hash>, spent: set<KeyImage>, spent': set<KeyImage>, images: set<KeyImage>)
    requires Clean(pool, spent) && images == spent' - spent - Elements(TxImages(txs))
    ensures Clean(Mempool.OnlyIds(Connected(pool, txs), ids), spent') <==> NoneLeft(pool, txs, ids, images)
  {
    var after := Mempool.OnlyIds(Connected(pool, txs), ids);
    if Clean(after, spent') {
      forall id, x | id in ids && Survives(pool, txs, id) && x in pool[id].images ensures x !in images {
        assert id in after && x in after[id].images;
      }
    } else {
      var id, x :| id in after && x in after[id].images && x in spent';
      assert id in ids && Survives(pool, txs, id) && x in pool[id].images && x in images;
    }
  }

  lemma SkippedIs(s: State, b: Block, s': State)
    requires Inv(s) && Attached(s, b) && Inv(s') && Main(s') == NewPath(s, b)
    ensures Skipped(s, b) == Spent(s') - Spent(s) - Elements(TxImages(b.txs))
  {
  }

  lemma CleanNode(n: Node)
    requires NodeInv(n, {}) && n.pending == []
    ensures Clean(n.pool, Spent(n.chain))
  {
  }

  /** The pool after a switch beyond the walk's reach, once expiry has run, is clean exactly when
      no transaction that outlives the new tip and expiry uses an image spent below the tip. */
  lemma LongBranchLeavesSpent(n: Node, b: Block, ids: set<Hash>, n': Node)
    requires NodeInv(n, {}) && n.pending == [] && Next(n, Chain(Adopt(b)), n') && Beyond(n.chain, b)
    ensures Inv(n'.chain) && n'.pending == [Connect(b), Expire]
    ensures Clean(AppliedAll(n'.pool, n'.pending, Spent(n'.chain), ids), Spent(n'.chain)) <==>
      NoneLeft(n.pool, b.txs, ids, Skipped(n.chain, b))
  {
    ChainModel.NextInv(n.chain, Adopt(b), n'.chain);
    CleanNode(n);
    AppliedTip(n.pool, b, Spent(n'.chain), ids);
    SkippedIs(n.chain, b, n'.chain);
    LeftSpent(n.pool, b.txs, ids, Spent(n.chain), Spent(n'.chain), Skipped(n.chain, b));
  }

  lemma {:induction false} AppliedConcat(pool: Contents, us: seq<Update>, vs: seq<Update>, spent: set<KeyImage>, ids: set<Hash>)
    ensures AppliedAll(pool, us + vs, spent, ids) == AppliedAll(AppliedAll(pool, us, spent, ids), vs, spent, ids)
    decreases |vs|
  {
    if vs == [] {
      assert us + vs == us;
    } else {
      assert (us + vs)[..|us + vs| - 1] == us + vs[..|vs| - 1];
      AppliedConcat(pool, us, vs[..|vs| - 1], spent, ids);
    }
  }

  ghost function DisconnectsOf(d: seq<Block>): (us: seq<Update>)
    ensures |us| == |d| && forall i :: 0 <= i < |d| ==> us[i] == Disconnect(d[i])
  {
    seq(|d|, i requires 0 <= i < |d| => Disconnect(d[i]))
  }

  ghost function ConnectsOf(c: seq<Block>): (us: seq<Update>)
    ensures |us| == |c| && forall i :: 0 <= i < |c| ==> us[i] == Connect(c[i])
  {
    seq(|c|, i requires 0 <= i < |c| => Connect(c[i]))
  }

  /** What the mempool needs to know of a returned transaction: its serialised size and fee. */
  datatype Measure = Measure(size: Tx -> nat, fee: Tx -> nat)

  ghost predicate Fresh(e: Entry, m: Measure, now: int) {
    m.size(e.tx) > 0 && Mempool.Records(e, m.fee(e.tx) / m.size(e.tx), m.size(e.tx), now)
  }

  /** Every new entry carries the size and fee rate of its transaction, and the present time. */
  ghost predicate Renewed(byId: map<Hash, Entry>, byId': map<Hash, Entry>, m: Measure, now: int) {
    forall id :: id in byId' && id !in byId ==> Fresh(byId'[id], m, now)
  }

  lemma RejoinedFresh(byId: map<Hash, Entry>, byId': map<Hash, Entry>, txs: seq<Tx>, sizes: seq<nat>, fees: seq<nat>, m: Measure, now: int)
    requires Mempool.Rejoined(byId, byId', txs, sizes, fees, now) && |sizes| == |fees| == |txs|
    requires forall k :: 0 <= k < |txs| ==> sizes[k] == m.size(txs[k]) && fees[k] == m.fee(txs[k])
    ensures Renewed(byId, byId', m, now)
  {
    forall id | id in byId' && id !in byId ensures Fresh(byId'[id], m, now) {
      var i :| Mempool.Rejoins(byId'[id], txs, sizes, fees, now, i);
    }
  }

  lemma RenewedTrans(byId0: map<Hash, Entry>, byId: map<Hash, Entry>, byId': map<Hash, Entry>, m: Measure, now: int)
    requires Renewed(byId0, byId, m, now) && Mempool.Kept(byId', byId) && Renewed(byId, byId', m, now) && Mempool.Kept(byId, byId0)
    ensures Renewed(byId0, byId', m, now) && Mempool.Kept(byId', byId0)
  {
    forall id | id in byId' && id !in byId0 ensures Fresh(byId'[id], m, now) {
      if id in byId { assert Fresh(byId[id], m, now); }
    }
  }

  /** One block's transactions come back, with their sizes and fees. */
  method DisconnectOne(pool: Mempool.Mempool, txs: seq<Tx>, spent: set<KeyImage>, m: Measure, now: int)
    requires pool.Valid() && forall tx: Tx :: m.size(tx) > 0
    modifies pool, pool.queue, pool.frame
    ensures pool.Valid() && fresh(pool.frame - old(pool.frame))
    ensures pool.Contents() == Disconnected(old(pool.Contents()), txs, spent)
    ensures Mempool.Kept(pool.txById, old(pool.txById)) && Renewed(old(pool.txById), pool.txById, m, now)
  {
    ghost var byId := pool.txById;
    var sizes := seq(|txs|, k requires 0 <= k < |txs| => m.size(txs[k]));
    var fees := seq(|txs|, k requires 0 <= k < |txs| => m.fee(txs[k]));
    pool.OnBlockDisconnected(txs, spent, sizes, fees, now);
    RejoinedFresh(byId, pool.txById, txs, sizes, fees, m, now);
  }

  method DisconnectAll(pool: Mempool.Mempool, d: seq<Block>, spent: set<KeyImage>, m: Measure, now: int, ghost ids: set<Hash>)
    requires pool.Valid() && forall tx: Tx :: m.size(tx) > 0
    modifies pool, pool.queue, pool.frame
    ensures pool.Valid() && fresh(pool.frame - old(pool.frame))
    ensures pool.Contents() == AppliedAll(old(pool.Contents()), DisconnectsOf(d), spent, ids)
    ensures Mempool.Kept(pool.txById, old(pool.txById)) && Renewed(old(pool.txById), pool.txById, m, now)
  {
    ghost var us, before := DisconnectsOf(d), pool.Contents();
    for i := 0 to |d|
      invariant pool.Valid() && fresh(pool.frame - old(pool.frame))
      invariant Mempool.Kept(pool.txById, old(pool.txById)) && Renewed(old(pool.txById), pool.txById, m, now)
      invariant pool.Contents() == AppliedAll(before, us[..i], spent, ids)
    {
      ghost var byId := pool.txById;
      assert us[..i + 1][..i] == us[..i];
      DisconnectOne(pool, d[i].txs, spent, m, now);
      RenewedTrans(old(pool.txById), byId, pool.txById, m, now);
    }
    assert us[..|d|] == us;
  }

  method ConnectAll(pool: Mempool.Mempool, c: seq<Block>, ghost spent: set<KeyImage>, ghost ids: set<Hash>)
    requires pool.Valid()
    modifies pool, pool.queue, pool.frame
    ensures pool.Valid() && pool.frame == old(pool.frame)
    ensures pool.Contents() == AppliedAll(old(pool.Contents()), ConnectsOf(c), spent, ids)
    ensures Mempool.Kept(old(pool.txById), pool.txById)
  {
    ghost var us, before := ConnectsOf(c), pool.Contents();
    for i := 0 to |c|
      invariant pool.Valid() && pool.frame == old(pool.frame) && Mempool.Kept(old(pool.txById), pool.txById)
      invariant pool.Contents() == AppliedAll(before, us[..i], spent, ids)
    {
      assert us[..i + 1][..i] == us[..i];
      pool.OnBlockConnected(c[i].txs);
    }
    assert us[..|c|] == us;
  }

  /** Working off all pending updates leaves no use of a spent image but those missed. */
  lemma {:induction false} AppliedClean(pool: Contents, us: seq<Update>, spent: set<KeyImage>, ids: set<Hash>, missed: set<KeyImage>)
    requires CleanBut(pool, spent, PendingImages(us) + missed)
    ensures CleanBut(AppliedAll(pool, us, spent, ids), spent, missed)
    decreases |us|
  {
    if us != [] {
      var next, pending := Applied(pool, us[0], spent, ids), PendingImages(us) + missed;
      match us[0] {
        case Disconnect(b) => DisconnectedClean(pool, b.txs, spent, pending);
        case Connect(b) => ConnectedClean(pool, b.txs, spent, pending);
        case Expire =>
      }
      AppliedClean(next, us[1..], spent, ids, missed);
      assert us == [us[0]] + us[1..];
      AppliedConcat(pool, [us[0]], us[1..], spent, ids);
      assert [us[0]][..0] == [];
      assert AppliedAll(pool, [us[0]], spent, ids) == next;
    }
  }

  ghost predicate NoExpiry(us: seq<Update>) {
    forall i :: 0 <= i < |us| ==> !us[i].Expire?
  }

  lemma {:induction false} ExpiryOnly(pool: Contents, us: seq<Update>, spent: set<KeyImage>, ids: set<Hash>, ids': set<Hash>)
    requires NoExpiry(us)
    ensures AppliedAll(pool, us, spent, ids) == AppliedAll(pool, us, spent, ids')
  {
    if us != [] { ExpiryOnly(pool, us[..|us| - 1], spent, ids, ids'); }
  }

  lemma AppliedThenExpired(pool: Contents, us: seq<Update>, spent: set<KeyImage>, ids: set<Hash>)
    requires NoExpiry(us)
    ensures AppliedAll(pool, us + [Expire], spent, ids) == Mempool.OnlyIds(AppliedAll(pool, us, spent, {}), ids)
  {
    assert (us + [Expire])[..|us|] == us;
    ExpiryOnly(pool, us, spent, ids, {});
  }

  /** The updates of a reorganisation, from the lists the walk returns. */
  lemma UpdatesFromLists(s: State, b: Block, d: seq<Block>, c: seq<Block>)
    requires Inv(s) && Attached(s, b) && b.prev != s.tip && BranchLength(s, b) < Reorg.MAX_WALK
    requires IsReversedTail(d, Main(s), Shared(s, b)) && IsTail(c, NewPath(s, b), Shared(s, b))
    ensures Updates(s, b) == DisconnectsOf(d) + ConnectsOf(c) + [Expire]
  {
    assert Disconnects(Main(s), Shared(s, b)) == DisconnectsOf(d);
    assert Connects(NewPath(s, b), Shared(s, b)) == ConnectsOf(c);
  }

  /** When the entry for id was made: before the update, or during it. */
  ghost function Since(byId: map<Hash, Entry>, id: Hash, now: int): int {
    if id in byId then byId[id].addedAt else now
  }

  /** Expiry has left of the pool what is not older than the cutoff. */
  ghost predicate Unexpired(pool: Contents, byId: map<Hash, Entry>, now: int, cutoff: int, ids: set<Hash>) {
    forall id :: id in pool ==> (id in ids <==> Since(byId, id, now) >= cutoff)
  }

  lemma ExpiryLeaves(byId0: map<Hash, Entry>, byId: map<Hash, Entry>, now: int, cutoff: int)
    requires forall id :: id in byId ==> byId[id].addedAt == Since(byId0, id, now)
    ensures var rest := byId - Mempool.Expired(byId, cutoff);
      && Mempool.OnlyIds(Mempool.ContentsOf(byId), rest.Keys) == Mempool.ContentsOf(rest)
      && Unexpired(Mempool.ContentsOf(byId), byId0, now, cutoff, rest.Keys)
  {
  }

  method Expiry(pool: Mempool.Mempool, cutoff: int, ghost byId0: map<Hash, Entry>, ghost now: int) returns (ghost ids: set<Hash>)
    requires pool.Valid() && forall id :: id in pool.txById ==> pool.txById[id].addedAt == Since(byId0, id, now)
    modifies pool, pool.queue, pool.frame
    ensures pool.Valid() && pool.frame == old(pool.frame)
    ensures pool.Contents() == Mempool.OnlyIds(old(pool.Contents()), ids)
    ensures Unexpired(old(pool.Contents()), byId0, now, cutoff, ids)
  {
    ExpiryLeaves(byId0, pool.txById, now, cutoff);
    var _ := pool.RemoveExpired(cutoff);
    ids := pool.txById.Keys;
  }

  /** Only the new tip is connected. */
  method ConnectTip(pool: Mempool.Mempool, block: Block, cutoff: int, ghost spent: set<KeyImage>, ghost now: int)
    returns (ghost ids: set<Hash>)
    requires pool.Valid()
    modifies pool, pool.queue, pool.frame
    ensures pool.Valid() && pool.frame == old(pool.frame)
    ensures pool.Contents() == AppliedAll(old(pool.Contents()), [Connect(block), Expire], spent, ids)
    ensures Unexpired(AppliedAll(old(pool.Contents()), [Connect(block)], spent, {}), old(pool.txById), now, cutoff, ids)
  {
    ghost var before, byId := pool.Contents(), pool.txById;
    ConnectAll(pool, [block], spent, {});
    ids := Expiry(pool, cutoff, byId, now);
    assert ConnectsOf([block]) == [Connect(block)];
    AppliedThenExpired(before, [Connect(block)], spent, ids);
    assert [Connect(block)] + [Expire] == [Connect(block), Expire];
  }

  /** The walk from both tips, in terms of the model: exact lists, or nothing. */
  method LocateDiff(bs: map<Hash, Block>, previousBest: Hash, block: Block, ghost s: State) returns (d: seq<Block>, c: seq<Block>)
    requires Inv(s) && Joins(s, block) && FinalityAllows(s, block) && bs == WithBlock(s, block)
    requires previousBest == s.tip && block.prev != s.tip
    ensures c == [] ==> Updates(s, block) == [Connect(block), Expire]
    ensures c != [] ==> Updates(s, block) == DisconnectsOf(d) + ConnectsOf(c) + [Expire]
  {
    JoinPaths(s, block);
    ForkBelowNew(s, block);
    d, c := Reorg.CollectReorgDiff(bs, previousBest, block.hash);
    if BranchLength(s, block) < Reorg.MAX_WALK { UpdatesFromLists(s, block, d, c); }
  }

  lemma AgesKept(byId: map<Hash, Entry>, back: map<Hash, Entry>, rest: map<Hash, Entry>, m: Measure, now: int)
    requires Mempool.Kept(back, byId) && Renewed(byId, back, m, now) && Mempool.Kept(back, rest)
    ensures forall id :: id in rest ==> rest[id].addedAt == Since(byId, id, now)
  {
    forall id | id in rest ensures rest[id].addedAt == Since(byId, id, now) {
      if id !in byId { assert Fresh(back[id], m, now); }
    }
  }

  /** Both sides of a reorganisation. */
  method ExchangeBlocks(pool: Mempool.Mempool, d: seq<Block>, c: seq<Block>, spent: set<KeyImage>, m: Measure, now: int)
    requires pool.Valid() && forall tx: Tx :: m.size(tx) > 0
    modifies pool, pool.queue, pool.frame
    ensures pool.Valid() && fresh(pool.frame - old(pool.frame))
    ensures pool.Contents() == AppliedAll(old(pool.Contents()), DisconnectsOf(d) + ConnectsOf(c), spent, {})
    ensures forall id :: id in pool.txById ==> pool.txById[id].addedAt == Since(old(pool.txById), id, now)
  {
    ghost var before, byId := pool.Contents(), pool.txById;
    DisconnectAll(pool, d, spent, m, now, {});
    ghost var back := pool.txById;
    ConnectAll(pool, c, spent, {});
    AgesKept(byId, back, pool.txById, m, now);
    AppliedConcat(before, DisconnectsOf(d), ConnectsOf(c), spent, {});
  }

  /** Both sides of a reorganisation, then expiry. */
  method Exchange(pool: Mempool.Mempool, d: seq<Block>, c: seq<Block>, spent: set<KeyImage>, m: Measure, now: int, cutoff: int)
    returns (ghost ids: set<Hash>)
    requires pool.Valid() && forall tx: Tx :: m.size(tx) > 0
    modifies pool, pool.queue, pool.frame
    ensures pool.Valid()
    ensures pool.Contents() == AppliedAll(old(pool.Contents()), DisconnectsOf(d) + ConnectsOf(c) + [Expire], spent, ids)
    ensures Unexpired(AppliedAll(old(pool.Contents()), DisconnectsOf(d) + ConnectsOf(c), spent, {}), old(pool.txById), now, cutoff, ids)
  {
    ghost var before, byId := pool.Contents(), pool.txById;
    ExchangeBlocks(pool, d, c, spent, m, now);
    ids := Expiry(pool, cutoff, byId, now);
    AppliedThenExpired(before, DisconnectsOf(d) + ConnectsOf(c), spent, ids);
  }

  /** The updates before expiry. */
  ghost function Changes(s: State, b: Block): seq<Update>
    requires Inv(s) && Attached(s, b)
  {
    Updates(s, b)[..|Updates(s, b)| - 1]
  }

  /** Brings the mempool in step after `block` has become the tip. The chain was s before; bs
      are the stored blocks and spent the key images of the new main chain. */
  method UpdateMempool(pool: Mempool.Mempool, bs: map<Hash, Block>, block: Block, previousBest: Hash,
                       spent: set<KeyImage>, m: Measure, now: int, cutoff: int, ghost s: State) returns (ghost ids: set<Hash>)
    requires pool.Valid() && forall tx: Tx :: m.size(tx) > 0
    requires Inv(s) && Joins(s, block) && FinalityAllows(s, block)
    requires bs == WithBlock(s, block) && previousBest == s.tip
    modifies pool, pool.queue, pool.frame
    ensures pool.Valid()
    ensures pool.Contents() == AppliedAll(old(pool.Contents()), Updates(s, block), spent, ids)
    ensures Unexpired(AppliedAll(old(pool.Contents()), Changes(s, block), spent, {}), old(pool.txById), now, cutoff, ids)
  {
    assert [Connect(block), Expire][..1] == [Connect(block)];
    if block.prev == previousBest {
      ids := ConnectTip(pool, block, cutoff, spent, now);
    } else {
      var d, c := LocateDiff(bs, previousBest, block, s);
      if c == [] {
        ids := ConnectTip(pool, block, cutoff, spent, now);
      } else {
        ghost var us := DisconnectsOf(d) + ConnectsOf(c);
        assert (us + [Expire])[..|us|] == us;
        ids := Exchange(pool, d, c, spent, m, now, cutoff);
      }
    }
  }
}
