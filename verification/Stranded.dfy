/** Two runs that a deep truncation makes possible: one on which the chain does not heal, and one on
    which a transaction stays in the pool although it is spent. */
module Stranded {
  import opened Seqs
  import opened Blocks
  import opened ChainModel
  import opened Fork
  import opened Cache
  import opened Adoption
  import opened Pool
  import opened Crowding
  import opened N = Node
  import opened Words
  import opened Lwma
  import Storage
  import C = Chain
  import Mempool
  import Reorg

  // ---------------------------------------------------------------- a truncation that does not heal

  /** The first branch up to height n is stored, and the chain truncated to its bottom block. */
  ghost function Cut(n: nat): State
    requires n <= TALLEST
  {
    Forked(n, 0).(tip := 0)
  }

  /** Truncated to its bottom block, a chain of height n meets the child of its old tip. */
  lemma ChildOfOldTip(s: State, s1: State, n: nat, cap: nat)
    requires 1 <= n < TALLEST && Inv(s) && Main(s) == Line(false, n + 1) && s1 == s.(tip := Main(s)[0].hash)
    requires var b := BlockAt(false, n + 1); b.hash !in s.blocks && Attached(s, b) && b.prev == s.tip
    ensures var b := BlockAt(false, n + 1);
      && ChainModel.Next(s, Truncate(0), s1) && Inv(s1) && Main(s1) == Line(false, 1) && Height(s1) == 0
      && Admissible(s1, b) && NewPath(s1, b) == Line(false, n + 2) && Work(NewPath(s1, b)) > Work(Main(s1))
      && FinalityAllows(s1, b) && BranchLength(s1, b) == n + 1
      && (Adoptable(s1, b, cap) <==> n + 2 <= cap) && (Reachable(s1, b, cap) <==> n + 2 < cap)
  {
    var b := BlockAt(false, n + 1);
    ChainModel.NextInv(s, Truncate(0), s1);
    assert Main(s)[..1] == Line(false, 1);
    HealingBranch(s, 0, s1, b, cap);
    NextAdmissible(s1, false, n + 1, 1);
  }

  lemma CutFacts(n: nat, cap: nat)
    requires 1 <= n < TALLEST && Laid(n, 0)
    ensures var s1, b := Cut(n), BlockAt(false, n + 1);
      && ChainModel.Next(Forked(n, 0), Truncate(0), s1) && Inv(s1) && Main(s1) == Line(false, 1) && Height(s1) == 0
      && Admissible(s1, b) && NewPath(s1, b) == Line(false, n + 2) && Work(NewPath(s1, b)) > Work(Main(s1))
      && FinalityAllows(s1, b) && BranchLength(s1, b) == n + 1
      && (Adoptable(s1, b, cap) <==> n + 2 <= cap) && (Reachable(s1, b, cap) <==> n + 2 < cap)
  {
    MainAttached(n + 1);
    assert Main(Forked(n, 0))[0].hash == 0;
    ChildOfOldTip(Forked(n, 0), Cut(n), n, cap);
  }

  /** At every capacity there is a truncation too deep to heal: the child of the old tip is
      admissible, heavier and allowed by finality, on a branch longer than the cache. */
  lemma TooDeepToHeal(cap: nat) returns (ss: seq<State>, es: seq<Event>, b: Block)
    requires 1 <= cap < TALLEST
    ensures ChainModel.Run(ss, es) && |ss[0].blocks| == 1 && |ss| >= 2 && es[|es| - 1] == Truncate(0)
    ensures var s0, s := ss[|ss| - 2], ss[|ss| - 1];
      && Inv(s0) && Inv(s) && b.prev == s0.tip && Height(s0) == cap
      && Admissible(s, b) && Work(NewPath(s, b)) > Work(Main(s)) && FinalityAllows(s, b) && BranchLength(s, b) > cap
  {
    ss, es := ForkedReached(cap, 0);
    CutFacts(cap, cap);
    ss, es := RunOn(ss, es, Forked(cap, 0), Truncate(0), Cut(cap));
    b := BlockAt(false, cap + 1);
  }

  // ---------------------------------------------------------------- a window out of memory

  method Restart(store: Storage.Store, capSetting: int) returns (chain: C.Chain)
    requires store.Valid()
    ensures fresh(chain) && fresh(chain.cache) && chain.store == store && chain.Valid() && chain.height == store.tipHeight
    ensures forall h :: h in chain.byHeight ==> h + PROTECTED_BACK >= chain.height
  {
    chain := new C.Chain(store, capSetting);
    var ok := chain.Load();
  }

  /** Start-up reads the last 101 blocks; a truncation by more than 40 of them leaves a chain whose
      averaging window is not in memory, and the next difficulty cannot be computed. */
  method RestartThenTruncate(store: Storage.Store, capSetting: int, keep: nat) returns (chain: C.Chain, d: Option<U64>)
    requires store.Valid() && LWMA_WINDOW <= keep && keep + (PROTECTED_BACK - LWMA_WINDOW) < store.tipHeight
    modifies store
    ensures chain.Valid() && chain.store == store && chain.height == keep && d.None?
  {
    chain := Restart(store, capSetting);
    chain.TruncateToHeight(keep);
    d := chain.NextDifficulty();
    assert !chain.InMemory(keep - LWMA_WINDOW);
  }

  // ---------------------------------------------------------------- a spent transaction that stays

  ghost function Quiet(s: State, pool: Contents): Node { Node(s, pool, [], None) }

  /** A cache of cap blocks lets the switch to b through: with the recent chain cached, and from
      one block more on whatever it holds. */
  ghost predicate LetThrough(s: State, b: Block, cap: nat)
    requires Inv(s) && Attached(s, b)
  {
    Adoptable(s, b, cap) && (cap > Reorg.MAX_WALK + 1 ==> Reachable(s, b, cap))
  }

  ghost predicate Taken(n: Node, e: Step, cap: nat) {
    e.Chain? && e.event.Adopt? ==> Inv(n.chain) && Attached(n.chain, e.event.b) && LetThrough(n.chain, e.event.b, cap)
  }

  ghost predicate TakenAt(ns: seq<Node>, es: seq<Step>, cap: nat, i: nat)
    requires i < |es| < |ns|
  {
    Taken(ns[i], es[i], cap)
  }

  ghost predicate AllTaken(ns: seq<Node>, es: seq<Step>, cap: nat) {
    |es| < |ns| && forall i: nat {:trigger TakenAt(ns, es, cap, i)} :: i < |es| ==> TakenAt(ns, es, cap, i)
  }

  /** A run of the node from n0 to n that a cache of cap blocks lets through. */
  ghost predicate Leads(ns: seq<Node>, es: seq<Step>, cap: nat, n0: Node, n: Node) {
    N.Run(ns, es) && AllTaken(ns, es, cap) && ns[0] == n0 && ns[|ns| - 1] == n
  }

  lemma RunGrows(ns: seq<Node>, es: seq<Step>, n: Node, e: Step, n': Node)
    requires N.Run(ns, es) && ns[|ns| - 1] == n && Inv(n.chain) && N.Next(n, e, n')
    ensures N.Run(ns + [n'], es + [e])
  {
    forall i: nat | i < |es + [e]| ensures N.StepAt(ns + [n'], es + [e], i) {
      if i < |es| { assert N.StepAt(ns, es, i); }
    }
  }

  lemma TakenGrows(ns: seq<Node>, es: seq<Step>, cap: nat, n: Node, e: Step, n': Node)
    requires AllTaken(ns, es, cap) && |ns| == |es| + 1 && ns[|ns| - 1] == n && Taken(n, e, cap)
    ensures AllTaken(ns + [n'], es + [e], cap)
  {
    forall i: nat | i < |es + [e]| ensures TakenAt(ns + [n'], es + [e], cap, i) {
      if i < |es| { assert TakenAt(ns, es, cap, i); }
    }
  }

  lemma StepOn(ns: seq<Node>, es: seq<Step>, cap: nat, n0: Node, n: Node, e: Step, n': Node) returns (ns': seq<Node>, es': seq<Step>)
    requires Leads(ns, es, cap, n0, n) && Inv(n.chain) && N.Next(n, e, n') && Taken(n, e, cap)
    ensures Leads(ns', es', cap, n0, n')
  {
    ns', es' := ns + [n'], es + [e];
    RunGrows(ns, es, n, e, n');
    TakenGrows(ns, es, cap, n, e, n');
  }

  lemma UpdatesOn(ns: seq<Node>, es: seq<Step>, cap: nat, n0: Node, s: State, pool: Contents, b: Block, ids: set<Hash>)
    returns (ns': seq<Node>, es': seq<Step>)
    requires Inv(s) && Leads(ns, es, cap, n0, Node(s, pool, [Connect(b), Expire], None))
    ensures Leads(ns', es', cap, n0, Quiet(s, Mempool.OnlyIds(Connected(pool, b.txs), ids)))
  {
    var n1, n2 := Node(s, pool, [Connect(b), Expire], None), Node(s, Connected(pool, b.txs), [Expire], None);
    assert [Connect(b), Expire][1..] == [Expire];
    ns', es' := StepOn(ns, es, cap, n0, n1, Apply({}), n2);
    ns', es' := StepOn(ns', es', cap, n0, n2, Apply(ids), Quiet(s, Mempool.OnlyIds(Connected(pool, b.txs), ids)));
  }

  /** A chain change whose updates are a connect and an expiry, both worked off at once. */
  lemma SwitchOn(ns: seq<Node>, es: seq<Step>, cap: nat, n0: Node, s: State, pool: Contents, b: Block, s': State, ids: set<Hash>)
    returns (ns': seq<Node>, es': seq<Step>)
    requires Leads(ns, es, cap, n0, Quiet(s, pool)) && Inv(s) && ChainModel.Next(s, Adopt(b), s') && LetThrough(s, b, cap)
    requires Updates(s, b) == [Connect(b), Expire]
    ensures Leads(ns', es', cap, n0, Quiet(s', Mempool.OnlyIds(Connected(pool, b.txs), ids)))
  {
    ChainModel.NextInv(s, Adopt(b), s');
    ns', es' := StepOn(ns, es, cap, n0, Quiet(s, pool), Chain(Adopt(b)), Node(s', pool, [Connect(b), Expire], None));
    ns', es' := UpdatesOn(ns', es', cap, n0, s', pool, b, ids);
  }

  lemma NothingPooled(txs: seq<Tx>)
    ensures Mempool.OnlyIds(Connected(map[], txs), {}) == map[]
  {
  }

  /** The tip is extended, with an empty pool. */
  lemma ExtendOn(ns: seq<Node>, es: seq<Step>, cap: nat, n0: Node, s: State, b: Block, s': State) returns (ns': seq<Node>, es': seq<Step>)
    requires Leads(ns, es, cap, n0, Quiet(s, map[])) && Inv(s) && ChainModel.Next(s, Adopt(b), s')
    requires b.height > 0 && b.prev == s.tip && cap >= PROTECTED_BACK + MIN_SLACK
    ensures Leads(ns', es', cap, n0, Quiet(s', map[]))
  {
    AdmitGood(s, b);
    ExtensionFits(s, b, cap);
    NothingPooled(b.txs);
    ns', es' := SwitchOn(ns, es, cap, n0, s, map[], b, s', {});
  }

  /** The node grows its chain to height n with an empty pool. */
  lemma {:induction false} NodeGrown(n: nat, cap: nat, n0: Node) returns (ns: seq<Node>, es: seq<Step>)
    requires n <= TALLEST && cap >= PROTECTED_BACK + MIN_SLACK && n0 == Quiet(Forked(0, 0), map[])
    ensures Laid(n, 0) && Leads(ns, es, cap, n0, Quiet(Forked(n, 0), map[]))
  {
    if n == 0 {
      FoundedInv(BlockAt(false, 0));
      RootKept(0);
      ns, es := [n0], [];
    } else {
      ns, es := NodeGrown(n - 1, cap, n0);
      GrowMain(n);
      ns, es := ExtendOn(ns, es, cap, n0, Forked(n - 1, 0), BlockAt(false, n), Forked(n, 0));
    }
  }

  /** A transaction whose images are unspent is pooled. */
  lemma PoolOn(ns: seq<Node>, es: seq<Step>, cap: nat, n0: Node, s: State, tx: Tx) returns (ns': seq<Node>, es': seq<Step>)
    requires Leads(ns, es, cap, n0, Quiet(s, map[])) && Inv(s) && |tx.images| == 1 && tx.images[0] !in Spent(s)
    ensures Leads(ns', es', cap, n0, Quiet(s, map[tx.id := tx]))
  {
    var n1, n2 := Node(s, map[], [], Some(Adding(tx, 0))), Node(s, map[], [], Some(Adding(tx, 1)));
    ns', es' := StepOn(ns, es, cap, n0, Quiet(s, map[]), Begin(tx), n1);
    ns', es' := StepOn(ns', es', cap, n0, n1, Check, n2);
    assert Mempool.OnlyIds(map[], {}) == map[];
    ns', es' := StepOn(ns', es', cap, n0, n2, Finish(true, {}), Quiet(s, map[tx.id := tx]));
  }

  lemma SpenderSurvives(n: nat)
    requires 2 <= n <= TALLEST
    ensures var pool := map[SPENDER.id := SPENDER];
      Mempool.OnlyIds(Connected(pool, BlockAt(false, n).txs), {SPENDER.id}) == pool
  {
    var pool, txs := map[SPENDER.id := SPENDER], BlockAt(false, n).txs;
    ImagesAt(false, n);
    assert txs == [Tx(n, [])];
    assert Survives(pool, txs, SPENDER.id);
  }

  lemma SpendsImage(n: nat)
    requires n <= TALLEST + 1
    ensures IMAGE in ChainImages(Line(false, n)) <==> n >= 2
  {
    LineSums(false, n);
  }

  lemma ImagesAround(s: State, b: Block, n: nat)
    requires n < TALLEST && Inv(s) && Attached(s, b) && Main(s) == Line(false, 1) && NewPath(s, b) == Line(false, n + 2)
    ensures IMAGE !in Spent(s) && IMAGE in ChainImages(NewPath(s, b))
  {
    SpendsImage(1);
    SpendsImage(n + 2);
  }

  /** At every capacity beyond the walk's length: a thousand blocks are adopted and all but the
      bottom one truncated, a removed transaction is pooled again, and a child of the old tip brings
      the blocks back. Nothing is left to update, and the pool holds a spent transaction. */
  lemma SpentStaysPooled(cap: nat) returns (ns: seq<Node>, es: seq<Step>)
    requires cap > Reorg.MAX_WALK
    ensures N.Run(ns, es) && NodeInv(ns[0], {}) && ns[0].pool == map[] && |ns[0].chain.blocks| == 1
    ensures AllTaken(ns, es, cap)
    ensures var n := ns[|ns| - 1]; n.pending == [] && n.adding.None? && Inv(n.chain) && !Clean(n.pool, Spent(n.chain))
  {
    var top := Reorg.MAX_WALK - 1;
    var n0, s1, b, pool := Quiet(Forked(0, 0), map[]), Cut(top), BlockAt(false, top + 1), map[SPENDER.id := SPENDER];
    ns, es := NodeGrown(top, cap, n0);
    CutFacts(top, cap);
    ImagesAround(s1, b, top);
    ns, es := StepOn(ns, es, cap, n0, Quiet(Forked(top, 0), map[]), Chain(Truncate(0)), Quiet(s1, map[]));
    ns, es := PoolOn(ns, es, cap, n0, s1, SPENDER);
    var s2 := State(WithBlock(s1, b), b.hash);
    ChainModel.NextInv(s1, Adopt(b), s2);
    SpenderSurvives(top + 1);
    ns, es := SwitchOn(ns, es, cap, n0, s1, pool, b, s2, {SPENDER.id});
    FoundedInv(BlockAt(false, 0));
    assert IMAGE in Spent(s2) && IMAGE in pool[SPENDER.id].images;
  }
}
