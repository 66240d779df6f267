/** The two-party contract protocol (Contracts.js). A Contract log belongs
    to the offering party; a ContractParty log belongs to the responder.
    Replaying a Contract walks a work queue: a `signerResponded` entry
    fetches the responder's log and appends its entries to the END of the
    queue, so every entry already queued is processed first.

    `Expand` is the processing order and `Fold` the per-entry effect; the
    literal while loop (`Update`) is proved to compute `Fold` of `Expand`.
    The source has no bound on the splicing and loops forever on a
    responder log that refers back to itself; the model carries a fuel
    count of splices, proves that fuel never changes a result that settles
    (`ExpandFuelMonotone`), that a rank-ordered store always settles
    (`ReplaySettles`), and that a contract splicing a self-referring log
    never does, whatever the fuel (`ResponderSelfReferenceNeverSettles`). */
module Contracts {
  import opened Outcome
  import opened Js

  /** The documents the client can fetch, by id: each one's entries. */
  type Store = map<string, seq<Record>>

  /** `value.state`, absent until the first `offered` or `signerResponded`. */
  datatype ContractState = Unset | Offered | Signed

  /** The replayed `Contract.value`; fields never set read as `undefined`. */
  datatype ContractValue = ContractValue(
    contractId: string,
    state: ContractState,
    contractUrl: Value,
    offerer: Value,
    signatureDropoffUrl: Value,
    jlinxHost: Value,
    signer: Value,
    signatureId: Value)

  const FuelExhausted := "replay did not settle within the splice bound"

  /** `entry.event === kind` */
  predicate IsEvent(e: Record, kind: string) {
    Get(e, "event") == Str(kind)
  }

  predicate IsSplice(e: Record) {
    IsEvent(e, "signerResponded")
  }

  /** `entry.contractResponseId`: the responder log a splice refers to. */
  function Target(e: Record): Value {
    Get(e, "contractResponseId")
  }

  /** `jlinx.get(id)` followed by `entries()`; an id the store does not hold
      is an error. */
  function Lookup(store: Store, id: Value): (r: Result<seq<Record>>)
    ensures r.Ok? <==> id.Str? && id.s in store
    ensures r.Ok? ==> r.value == store[id.s]
  {
    if id.Str? && id.s in store then Ok(store[id.s])
    else Err("document not found: " + ToJsString(id))
  }

  /** `{ contractId: this._ledger.id }` */
  function Initial(id: string): ContractValue {
    ContractValue(id, Unset, Undefined, Undefined, Undefined, Undefined, Undefined, Undefined)
  }

  /** What one processed entry does to the value (the splice itself is in
      `Expand`). */
  function Effect(v: ContractValue, e: Record): (r: ContractValue)
    ensures r.contractId == v.contractId
    ensures r.state != v.state ==> IsEvent(e, "offered") || IsSplice(e)
    ensures r.signer != v.signer ==> IsEvent(e, "signed")
    ensures r.signatureId != v.signatureId ==> IsSplice(e)
    ensures IsSplice(e) ==> r.state == Signed
  {
    if IsEvent(e, "offered") then
      v.(state := Offered, contractUrl := Get(e, "contractUrl"), offerer := Get(e, "offerer"),
         signatureDropoffUrl := Get(e, "signatureDropoffUrl"), jlinxHost := Get(e, "jlinxHost"))
    else if IsSplice(e) then
      v.(state := Signed, signatureId := Target(e))
    else if IsEvent(e, "signed") then
      v.(signer := Get(e, "signer"))
    else
      v
  }

  function Fold(v: ContractValue, es: seq<Record>): ContractValue
    decreases |es|
  {
    if |es| == 0 then v else Fold(Effect(v, es[0]), es[1..])
  }

  /** The order in which the queue's entries are processed: each entry in
      turn, a splice queueing its target's entries at the end. Each splice
      spends one unit of fuel; a failed lookup is an error. */
  function Expand(store: Store, queue: seq<Record>, fuel: nat): (r: Result<seq<Record>>)
    ensures r.Ok? ==> |r.value| >= |queue|
    ensures r.Ok? && |queue| > 0 ==> r.value[0] == queue[0]
    ensures fuel == 0 ==> (r.Ok? <==> forall i :: 0 <= i < |queue| ==> !IsSplice(queue[i]))
    decreases fuel, |queue|
  {
    if |queue| == 0 then Ok([])
    else if IsSplice(queue[0]) then
      if fuel == 0 then Err(FuelExhausted)
      else
        var more := Lookup(store, Target(queue[0]));
        if more.Err? then Err(more.error)
        else
          var rest := Expand(store, queue[1..] + more.value, fuel - 1);
          if rest.Err? then rest else Ok([queue[0]] + rest.value)
    else
      var rest := Expand(store, queue[1..], fuel);
      if rest.Err? then rest else Ok([queue[0]] + rest.value)
  }

  /** Replay of a queue starting from value `v`. */
  function ReplayFrom(store: Store, v: ContractValue, queue: seq<Record>, fuel: nat): Result<ContractValue> {
    var order := Expand(store, queue, fuel);
    if order.Err? then Err(order.error) else Ok(Fold(v, order.value))
  }

  lemma {:induction false} FoldKeepsContractId(v: ContractValue, es: seq<Record>)
    ensures Fold(v, es).contractId == v.contractId
    decreases |es|
  {
    if |es| > 0 {
      FoldKeepsContractId(Effect(v, es[0]), es[1..]);
    }
  }

  /** `Contract.update()`: the replayed value of the contract log `id`.
      Whatever the entries, `contractId` is the log's own id. */
  function Replay(store: Store, id: string, fuel: nat): (r: Result<ContractValue>)
    requires id in store
    ensures r.Ok? ==> r.value.contractId == id
  {
    var r := ReplayFrom(store, Initial(id), store[id], fuel);
    if r.Ok? then
      FoldKeepsContractId(Initial(id), Expand(store, store[id], fuel).value);
      r
    else r
  }

  /** One turn of the replay loop, in terms of `ReplayFrom`. */
  lemma ReplayFromStep(store: Store, v: ContractValue, queue: seq<Record>, fuel: nat)
    requires |queue| > 0
    ensures !IsSplice(queue[0]) ==>
      ReplayFrom(store, v, queue, fuel) == ReplayFrom(store, Effect(v, queue[0]), queue[1..], fuel)
    ensures IsSplice(queue[0]) && fuel == 0 ==> ReplayFrom(store, v, queue, fuel) == Err(FuelExhausted)
    ensures IsSplice(queue[0]) && fuel > 0 && Lookup(store, Target(queue[0])).Err? ==>
      ReplayFrom(store, v, queue, fuel) == Err(Lookup(store, Target(queue[0])).error)
    ensures IsSplice(queue[0]) && fuel > 0 && Lookup(store, Target(queue[0])).Ok? ==>
      ReplayFrom(store, v, queue, fuel)
        == ReplayFrom(store, Effect(v, queue[0]), queue[1..] + Lookup(store, Target(queue[0])).value, fuel - 1)
  {
    var order := Expand(store, queue, fuel);
    if order.Ok? {
      assert order.value[0] == queue[0];
      assert Fold(v, order.value) == Fold(Effect(v, queue[0]), order.value[1..]);
    }
  }

  /** The while loop of `Contract.update()`, entry by entry. */
  method Update(store: Store, id: string, fuel: nat) returns (r: Result<ContractValue>)
    requires id in store
    ensures r == Replay(store, id, fuel)
  {
    var value := Initial(id);
    var entries := store[id];
    var budget := fuel;
    while |entries| > 0
      invariant ReplayFrom(store, value, entries, budget) == ReplayFrom(store, Initial(id), store[id], fuel)
      decreases budget, |entries|
    {
      ReplayFromStep(store, value, entries, budget);
      var entry := entries[0];
      entries := entries[1..];
      if IsSplice(entry) {
        if budget == 0 {
          return Err(FuelExhausted);
        }
        var more := Lookup(store, Target(entry));
        if more.Err? {
          return Err(more.error);
        }
        entries := entries + more.value;
        budget := budget - 1;
      }
      value := Effect(value, entry);
    }
    return Ok(value);
  }

  // ----- the processing order -----

  /** Splices only ever add to the end: the queue itself is processed first,
      in order, and everything after it comes from some stored log. */
  lemma {:induction false} ExpandPrefix(store: Store, queue: seq<Record>, fuel: nat)
    requires Expand(store, queue, fuel).Ok?
    ensures var o := Expand(store, queue, fuel).value;
      |o| >= |queue| && o[..|queue|] == queue
    decreases fuel, |queue|
  {
    if |queue| > 0 {
      var o := Expand(store, queue, fuel).value;
      if IsSplice(queue[0]) {
        var more := Lookup(store, Target(queue[0])).value;
        ExpandPrefix(store, queue[1..] + more, fuel - 1);
        assert o[1..][..|queue| - 1] == (queue[1..] + more)[..|queue| - 1];
      } else {
        ExpandPrefix(store, queue[1..], fuel);
      }
      assert o[..|queue|] == [queue[0]] + o[1..][..|queue| - 1];
    }
  }

  /** A queue without splices is processed exactly as it stands. */
  lemma {:induction false} ExpandSpliceFree(store: Store, queue: seq<Record>, fuel: nat)
    requires forall i :: 0 <= i < |queue| ==> !IsSplice(queue[i])
    ensures Expand(store, queue, fuel) == Ok(queue)
    decreases |queue|
  {
    if |queue| > 0 {
      ExpandSpliceFree(store, queue[1..], fuel);
      assert [queue[0]] + queue[1..] == queue;
    }
  }

  /** Fuel is a bound and nothing else: once a replay settles, more fuel
      gives the same result. */
  lemma {:induction false} ExpandFuelMonotone(store: Store, queue: seq<Record>, fuel: nat, more: nat)
    requires Expand(store, queue, fuel).Ok?
    requires fuel <= more
    ensures Expand(store, queue, more) == Expand(store, queue, fuel)
    decreases fuel, |queue|
  {
    if |queue| > 0 {
      if IsSplice(queue[0]) {
        var next := Lookup(store, Target(queue[0])).value;
        ExpandFuelMonotone(store, queue[1..] + next, fuel - 1, more - 1);
      } else {
        ExpandFuelMonotone(store, queue[1..], fuel, more);
      }
    }
  }

  /** Every entry processed after the queue itself comes from a log that a
      splice fetched; if all those logs satisfy `P` (and no splice refers to
      `id`), so does every such entry. */
  predicate AllSatisfy(es: seq<Record>, P: Record -> bool) {
    forall i :: 0 <= i < |es| ==> P(es[i])
  }

  /** No splice in the queue or in any stored log refers to `id`. */
  predicate NoSpliceTo(store: Store, queue: seq<Record>, id: string) {
    && (forall i :: 0 <= i < |queue| && IsSplice(queue[i]) ==> Target(queue[i]) != Str(id))
    && (forall d :: d in store ==>
          forall i :: 0 <= i < |store[d]| && IsSplice(store[d][i]) ==> Target(store[d][i]) != Str(id))
  }

  lemma {:induction false} ExpandTailFromOthers(store: Store, queue: seq<Record>, fuel: nat, id: string, P: Record -> bool)
    requires Expand(store, queue, fuel).Ok?
    requires NoSpliceTo(store, queue, id)
    requires forall d :: d in store && d != id ==> AllSatisfy(store[d], P)
    ensures var o := Expand(store, queue, fuel).value;
      |o| >= |queue| && forall k :: |queue| <= k < |o| ==> P(o[k])
    decreases fuel, |queue|
  {
    ExpandPrefix(store, queue, fuel);
    if |queue| > 0 {
      var o := Expand(store, queue, fuel).value;
      if IsSplice(queue[0]) {
        var more := Lookup(store, Target(queue[0])).value;
        var next := queue[1..] + more;
        assert NoSpliceTo(store, next, id) by {
          forall i | 0 <= i < |next| && IsSplice(next[i]) ensures Target(next[i]) != Str(id) {
            if i < |queue| - 1 {
              assert next[i] == queue[i + 1];
            } else {
              assert next[i] == more[i - (|queue| - 1)];
            }
          }
        }
        ExpandTailFromOthers(store, next, fuel - 1, id, P);
        ExpandPrefix(store, next, fuel - 1);
        forall k | |queue| <= k < |o| ensures P(o[k]) {
          assert o[k] == o[1..][k - 1];
          if k - 1 < |next| {
            assert o[1..][k - 1] == next[k - 1] == more[k - |queue|];
          }
        }
      } else {
        ExpandTailFromOthers(store, queue[1..], fuel, id, P);
        forall k | |queue| <= k < |o| ensures P(o[k]) {
          assert o[k] == o[1..][k - 1];
        }
      }
    }
  }

  // ----- termination -----

  /** The splice reached through `e` lands on a stored log ranked below `bound`. */
  predicate TargetBelow(store: Store, rank: map<string, nat>, e: Record, bound: nat) {
    Target(e).Str? && Target(e).s in store && Target(e).s in rank && rank[Target(e).s] < bound
  }

  predicate QueueBelow(store: Store, rank: map<string, nat>, queue: seq<Record>, bound: nat) {
    forall i :: 0 <= i < |queue| && IsSplice(queue[i]) ==> TargetBelow(store, rank, queue[i], bound)
  }

  /** A witness that the splice references are acyclic: every splice in a
      stored log refers to a stored log of strictly lower rank. */
  predicate Ranked(store: Store, rank: map<string, nat>) {
    forall d :: d in store ==> d in rank && QueueBelow(store, rank, store[d], rank[d])
  }

  /** How many splices replaying the log `d` performs. */
  function DocCost(store: Store, rank: map<string, nat>, d: string): nat
    requires Ranked(store, rank) && d in store
    decreases rank[d], 1
  {
    QueueCost(store, rank, store[d], rank[d])
  }

  function QueueCost(store: Store, rank: map<string, nat>, queue: seq<Record>, bound: nat): nat
    requires Ranked(store, rank) && QueueBelow(store, rank, queue, bound)
    decreases bound, 0, |queue|
  {
    if |queue| == 0 then 0
    else
      (if IsSplice(queue[0]) then 1 + DocCost(store, rank, Target(queue[0]).s) else 0)
      + QueueCost(store, rank, queue[1..], bound)
  }

  lemma {:induction false} QueueCostAppend(store: Store, rank: map<string, nat>, a: seq<Record>, b: seq<Record>, bound: nat)
    requires Ranked(store, rank) && QueueBelow(store, rank, a, bound) && QueueBelow(store, rank, b, bound)
    ensures QueueBelow(store, rank, a + b, bound)
    ensures QueueCost(store, rank, a + b, bound) == QueueCost(store, rank, a, bound) + QueueCost(store, rank, b, bound)
    decreases |a|
  {
    assert QueueBelow(store, rank, a + b, bound) by {
      forall i | 0 <= i < |a + b| && IsSplice((a + b)[i]) ensures TargetBelow(store, rank, (a + b)[i], bound) {
        if i < |a| { assert (a + b)[i] == a[i]; } else { assert (a + b)[i] == b[i - |a|]; }
      }
    }
    if |a| == 0 {
      assert a + b == b;
    } else {
      assert (a + b)[1..] == a[1..] + b;
      QueueCostAppend(store, rank, a[1..], b, bound);
    }
  }

  /** The bound only serves termination: it does not change the cost. */
  lemma {:induction false} QueueCostAnyBound(store: Store, rank: map<string, nat>, queue: seq<Record>, b1: nat, b2: nat)
    requires Ranked(store, rank) && QueueBelow(store, rank, queue, b1) && b1 <= b2
    ensures QueueBelow(store, rank, queue, b2)
    ensures QueueCost(store, rank, queue, b1) == QueueCost(store, rank, queue, b2)
    decreases |queue|
  {
    if |queue| > 0 {
      QueueCostAnyBound(store, rank, queue[1..], b1, b2);
    }
  }

  /** With acyclic references and as much fuel as the splices need, the
      processing order is always computed. */
  lemma {:induction false} ExpandSettles(store: Store, rank: map<string, nat>, queue: seq<Record>, bound: nat, fuel: nat)
    requires Ranked(store, rank) && QueueBelow(store, rank, queue, bound)
    requires fuel >= QueueCost(store, rank, queue, bound)
    ensures Expand(store, queue, fuel).Ok?
    decreases fuel, |queue|
  {
    if |queue| > 0 {
      var rest := queue[1..];
      assert QueueBelow(store, rank, rest, bound) by {
        forall i | 0 <= i < |rest| && IsSplice(rest[i]) ensures TargetBelow(store, rank, rest[i], bound) {
          assert rest[i] == queue[i + 1];
        }
      }
      if IsSplice(queue[0]) {
        var p := Target(queue[0]).s;
        QueueCostAnyBound(store, rank, store[p], rank[p], bound);
        QueueCostAppend(store, rank, rest, store[p], bound);
        ExpandSettles(store, rank, rest + store[p], bound, fuel - 1);
      } else {
        ExpandSettles(store, rank, rest, bound, fuel);
      }
    }
  }

  /** Replay of a contract terminates when the splice references are
      acyclic: the fuel `DocCost` suffices. */
  lemma ReplaySettles(store: Store, rank: map<string, nat>, id: string, fuel: nat)
    requires Ranked(store, rank) && id in store
    requires fuel >= DocCost(store, rank, id)
    ensures Replay(store, id, fuel).Ok?
  {
    ExpandSettles(store, rank, store[id], rank[id], fuel);
  }

  // ----- what a replay reads -----

  /** `sub` holds some of the store's logs, unchanged. */
  predicate SubStore(sub: Store, store: Store) {
    forall d :: d in sub ==> d in store && sub[d] == store[d]
  }

  /** Every splice in the queue refers to a log that `sub` holds. */
  predicate QueueInside(sub: Store, queue: seq<Record>) {
    forall i :: 0 <= i < |queue| && IsSplice(queue[i]) ==> Target(queue[i]).Str? && Target(queue[i]).s in sub
  }

  /** `sub` is closed under splicing: its logs only splice logs it holds. */
  predicate Closed(sub: Store) {
    forall d :: d in sub ==> QueueInside(sub, sub[d])
  }

  /** A replay reads only the logs its splices reach: over any closed part
      of the store that holds those logs, it computes the same order. */
  lemma {:induction false} ExpandReadsOnlyReached(store: Store, sub: Store, queue: seq<Record>, fuel: nat)
    requires SubStore(sub, store) && Closed(sub) && QueueInside(sub, queue)
    ensures Expand(store, queue, fuel) == Expand(sub, queue, fuel)
    decreases fuel, |queue|
  {
    if |queue| > 0 {
      var rest := queue[1..];
      assert QueueInside(sub, rest) by {
        forall i | 0 <= i < |rest| && IsSplice(rest[i]) ensures Target(rest[i]).Str? && Target(rest[i]).s in sub {
          assert rest[i] == queue[i + 1];
        }
      }
      if IsSplice(queue[0]) {
        if fuel > 0 {
          var t := Target(queue[0]).s;
          assert Lookup(store, Target(queue[0])) == Ok(sub[t]) == Lookup(sub, Target(queue[0]));
          var next := rest + sub[t];
          assert QueueInside(sub, sub[t]);
          assert QueueInside(sub, next) by {
            forall i | 0 <= i < |next| && IsSplice(next[i]) ensures Target(next[i]).Str? && Target(next[i]).s in sub {
              if i < |rest| { assert next[i] == rest[i]; } else { assert next[i] == sub[t][i - |rest|]; }
            }
          }
          ExpandReadsOnlyReached(store, sub, next, fuel - 1);
        }
      } else {
        ExpandReadsOnlyReached(store, sub, rest, fuel);
      }
    }
  }

  /** Replay of a contract terminates when the logs it reaches have acyclic
      references, whatever else the store holds (unresolvable or cyclic
      splices in logs it never reaches included). */
  lemma ReplaySettlesReached(store: Store, sub: Store, rank: map<string, nat>, id: string, fuel: nat)
    requires SubStore(sub, store) && Ranked(sub, rank) && id in sub
    requires fuel >= DocCost(sub, rank, id)
    ensures id in store && Replay(store, id, fuel).Ok?
  {
    assert Closed(sub) by {
      forall d | d in sub ensures QueueInside(sub, sub[d]) {
        assert QueueBelow(sub, rank, sub[d], rank[d]);
      }
    }
    assert QueueInside(sub, sub[id]);
    ExpandReadsOnlyReached(store, sub, sub[id], fuel);
    ExpandSettles(sub, rank, sub[id], rank[id], fuel);
  }

  function SpliceEntry(responseId: Value): Record {
    map["event" := Str("signerResponded"), "contractResponseId" := responseId]
  }

  /** From any point before the self-reference, the queue never settles:
      each splice re-queues the same log, splice included. */
  lemma {:induction false} SkipToSplice(store: Store, id: string, pre: seq<Record>, fuel: nat, k: nat)
    requires id in store && store[id] == pre + [SpliceEntry(Str(id))]
    requires forall i :: 0 <= i < |pre| ==> !IsSplice(pre[i])
    requires k <= |pre|
    ensures Expand(store, pre[k..] + [SpliceEntry(Str(id))], fuel) == Err(FuelExhausted)
    decreases fuel, |pre| - k
  {
    var s := SpliceEntry(Str(id));
    var q := pre[k..] + [s];
    if k < |pre| {
      assert q[0] == pre[k];
      assert q[1..] == pre[k + 1..] + [s];
      SkipToSplice(store, id, pre, fuel, k + 1);
    } else {
      assert q == [s];
      if fuel > 0 {
        assert q[1..] + store[id] == pre[0..] + [s];
        SkipToSplice(store, id, pre, fuel - 1, 0);
      }
    }
  }

  /** A contract log that, after any splice-free entries, acknowledges
      itself as its own responder never settles, whatever the fuel. */
  lemma SelfReferenceNeverSettles(store: Store, id: string, pre: seq<Record>, fuel: nat)
    requires id in store && store[id] == pre + [SpliceEntry(Str(id))]
    requires forall i :: 0 <= i < |pre| ==> !IsSplice(pre[i])
    ensures Replay(store, id, fuel) == Err(FuelExhausted)
  {
    SkipToSplice(store, id, pre, fuel, 0);
    assert pre[0..] == pre;
  }

  /** Log `d` refers to itself: one of its entries splices `d` again. */
  predicate SelfSplicing(store: Store, d: string) {
    d in store && exists j :: 0 <= j < |store[d]| && IsSplice(store[d][j]) && Target(store[d][j]) == Str(d)
  }

  /** A queue holding a splice of a self-splicing log never settles: each
      fetch of that log queues the self-splice again, so either the fuel
      runs out or some other fetch fails. */
  lemma {:induction false} SelfSplicingTargetNeverSettles(store: Store, queue: seq<Record>, fuel: nat, k: nat, d: string)
    requires k < |queue| && IsSplice(queue[k]) && Target(queue[k]) == Str(d)
    requires SelfSplicing(store, d)
    ensures Expand(store, queue, fuel).Err?
    decreases fuel, |queue|
  {
    if IsSplice(queue[0]) && fuel > 0 && Lookup(store, Target(queue[0])).Ok? {
      var more := Lookup(store, Target(queue[0])).value;
      var next := queue[1..] + more;
      if k > 0 {
        assert next[k - 1] == queue[k];
        SelfSplicingTargetNeverSettles(store, next, fuel - 1, k - 1, d);
      } else {
        assert more == store[d];
        var j :| 0 <= j < |store[d]| && IsSplice(store[d][j]) && Target(store[d][j]) == Str(d);
        assert next[|queue| - 1 + j] == store[d][j];
        SelfSplicingTargetNeverSettles(store, next, fuel - 1, |queue| - 1 + j, d);
      }
    } else if !IsSplice(queue[0]) {
      assert queue[1..][k - 1] == queue[k];
      SelfSplicingTargetNeverSettles(store, queue[1..], fuel, k - 1, d);
    }
  }

  /** A contract that acknowledges a responder log referring to itself (or
      that refers to itself) never replays, whatever the fuel: the source
      loops forever on it. */
  lemma ResponderSelfReferenceNeverSettles(store: Store, id: string, k: nat, d: string, fuel: nat)
    requires id in store && k < |store[id]|
    requires IsSplice(store[id][k]) && Target(store[id][k]) == Str(d)
    requires SelfSplicing(store, d)
    ensures Replay(store, id, fuel).Err?
  {
    SelfSplicingTargetNeverSettles(store, store[id], fuel, k, d);
  }

  // The looping example: `C = [offered, signerResponded(P)]` with a
  // responder log `P = [signerResponded(P)]`.
  const LoopStore: Store := map["C" := [ExampleOffer, ExampleAck], "P" := [ExampleAck]]

  /** The looping example never replays, however much fuel is given. */
  lemma LoopExampleNeverSettles(fuel: nat)
    ensures Replay(LoopStore, "C", fuel).Err?
  {
    assert LoopStore["P"][0] == ExampleAck;
    assert SelfSplicing(LoopStore, "P");
    assert LoopStore["C"][1] == ExampleAck;
    ResponderSelfReferenceNeverSettles(LoopStore, "C", 1, "P", fuel);
  }

  // ----- what the fold keeps -----

  lemma {:induction false} FoldAppend(v: ContractValue, a: seq<Record>, b: seq<Record>)
    ensures Fold(v, a + b) == Fold(Fold(v, a), b)
    decreases |a|
  {
    if |a| == 0 {
      assert a + b == b;
    } else {
      assert (a + b)[1..] == a[1..] + b;
      FoldAppend(Effect(v, a[0]), a[1..], b);
    }
  }

  /** Entries that are none of `offered`, `signerResponded`, `signed` are
      skipped, and `signed` entries touch only `signer`. */
  lemma {:induction false} FoldSkipsOthers(v: ContractValue, es: seq<Record>)
    requires forall i :: 0 <= i < |es| ==> !IsEvent(es[i], "offered") && !IsSplice(es[i])
    ensures Fold(v, es) == v.(signer := Fold(v, es).signer)
    decreases |es|
  {
    if |es| > 0 {
      var rest := es[1..];
      assert forall i :: 0 <= i < |rest| ==> rest[i] == es[i + 1];
      FoldSkipsOthers(Effect(v, es[0]), rest);
    }
  }

  /** Without a `signed` entry, `signer` is kept. */
  lemma {:induction false} FoldKeepsSigner(v: ContractValue, es: seq<Record>)
    requires forall i :: 0 <= i < |es| ==> !IsEvent(es[i], "signed")
    ensures Fold(v, es).signer == v.signer
    decreases |es|
  {
    if |es| > 0 {
      var rest := es[1..];
      assert forall i :: 0 <= i < |rest| ==> rest[i] == es[i + 1];
      FoldKeepsSigner(Effect(v, es[0]), rest);
    }
  }

  /** Without an `offered` entry, only the state, `signatureId` and
      `signer` can change, and a `signed` state stays `signed`. */
  lemma {:induction false} FoldWithoutOffer(v: ContractValue, es: seq<Record>)
    requires forall i :: 0 <= i < |es| ==> !IsEvent(es[i], "offered")
    ensures Fold(v, es).(state := v.state, signatureId := v.signatureId, signer := v.signer) == v
    ensures v.state == Signed ==> Fold(v, es).state == Signed
    decreases |es|
  {
    if |es| > 0 {
      var rest := es[1..];
      assert forall i :: 0 <= i < |rest| ==> rest[i] == es[i + 1];
      FoldWithoutOffer(Effect(v, es[0]), rest);
    }
  }

  /** Without a splice, `signatureId` is kept. */
  lemma {:induction false} FoldKeepsSignatureId(v: ContractValue, es: seq<Record>)
    requires forall i :: 0 <= i < |es| ==> !IsSplice(es[i])
    ensures Fold(v, es).signatureId == v.signatureId
    decreases |es|
  {
    if |es| > 0 {
      var rest := es[1..];
      assert forall i :: 0 <= i < |rest| ==> rest[i] == es[i + 1];
      FoldKeepsSignatureId(Effect(v, es[0]), rest);
    }
  }

  /** The last `signed` entry processed decides `signer`, whichever log it
      came from. */
  lemma SignerLastWins(v: ContractValue, es: seq<Record>, i: nat)
    requires i < |es| && IsEvent(es[i], "signed")
    requires forall j :: i < j < |es| ==> !IsEvent(es[j], "signed")
    ensures Fold(v, es).signer == Get(es[i], "signer")
  {
    assert es == es[..i + 1] + es[i + 1..];
    FoldAppend(v, es[..i + 1], es[i + 1..]);
    assert es[..i + 1] == es[..i] + [es[i]];
    FoldAppend(v, es[..i], [es[i]]);
    FoldKeepsSigner(Fold(v, es[..i + 1]), es[i + 1..]);
  }

  /** The last `offered` entry processed decides the offer's four fields. */
  lemma OfferLastWins(v: ContractValue, es: seq<Record>, i: nat)
    requires i < |es| && IsEvent(es[i], "offered")
    requires forall j :: i < j < |es| ==> !IsEvent(es[j], "offered")
    ensures var r := Fold(v, es);
      && r.contractUrl == Get(es[i], "contractUrl")
      && r.offerer == Get(es[i], "offerer")
      && r.signatureDropoffUrl == Get(es[i], "signatureDropoffUrl")
      && r.jlinxHost == Get(es[i], "jlinxHost")
  {
    assert es == es[..i + 1] + es[i + 1..];
    FoldAppend(v, es[..i + 1], es[i + 1..]);
    assert es[..i + 1] == es[..i] + [es[i]];
    FoldAppend(v, es[..i], [es[i]]);
    FoldWithoutOffer(Fold(v, es[..i + 1]), es[i + 1..]);
  }

  /** A `signerResponded` entry sets state `signed` and `signatureId`
      unconditionally; only a later `offered` can move the state back. */
  lemma ResponseLastWins(v: ContractValue, es: seq<Record>, i: nat)
    requires i < |es| && IsSplice(es[i])
    requires forall j :: i < j < |es| ==> !IsEvent(es[j], "offered")
    ensures Fold(v, es).state == Signed
    ensures (forall j :: i < j < |es| ==> !IsSplice(es[j])) ==> Fold(v, es).signatureId == Target(es[i])
  {
    assert es == es[..i + 1] + es[i + 1..];
    FoldAppend(v, es[..i + 1], es[i + 1..]);
    assert es[..i + 1] == es[..i] + [es[i]];
    FoldAppend(v, es[..i], [es[i]]);
    var tail := es[i + 1..];
    assert forall j :: 0 <= j < |tail| ==> tail[j] == es[i + 1 + j];
    FoldWithoutOffer(Fold(v, es[..i + 1]), tail);
    if forall j :: i < j < |es| ==> !IsSplice(es[j]) {
      FoldKeepsSignatureId(Fold(v, es[..i + 1]), tail);
    }
  }

  // The splice-ordering example: a contract log `C = [offered,
  // signerResponded(P)]` and a responder log `P = [signed]`.
  const ExampleOffer: Record := map["event" := Str("offered"), "offerer" := Str("did:key:z6mkA"), "contractUrl" := Str("https://c.example/terms")]
  const ExampleAck: Record := SpliceEntry(Str("P"))
  const ExampleSigned: Record := map["event" := Str("signed"), "signer" := Str("did:key:z6mkB"), "contractId" := Str("C")]
  const ExampleStore: Store := map["C" := [ExampleOffer, ExampleAck], "P" := [ExampleSigned]]

  /** The example is processed as `offered, signerResponded, signed`: the
      responder's entry comes after the splice that fetched it. */
  lemma SpliceExampleOrder()
    ensures Expand(ExampleStore, ExampleStore["C"], 1) == Ok([ExampleOffer, ExampleAck, ExampleSigned])
  {
    var offer, ack, signed, store := ExampleOffer, ExampleAck, ExampleSigned, ExampleStore;
    assert !IsSplice(offer) && IsSplice(ack) && !IsSplice(signed);
    assert Target(ack) == Str("P");
    assert Lookup(store, Str("P")) == Ok([signed]);
    assert Expand(store, [], 0) == Ok([]);
    assert [signed][1..] == [] && [signed] + [] == [signed];
    assert Expand(store, [signed], 0) == Ok([signed]);
    assert [ack][1..] + [signed] == [signed];
    assert Expand(store, [ack], 1) == Ok([ack] + [signed]);
    assert [ack] + [signed] == [ack, signed];
    assert [offer, ack][1..] == [ack];
    assert Expand(store, [offer, ack], 1) == Ok([offer] + [ack, signed]);
    assert [offer] + [ack, signed] == [offer, ack, signed];
  }

  /** Replaying the example shows both the offer and the responder's
      signer in the contract's value. */
  lemma SpliceExample()
    ensures Replay(ExampleStore, "C", 1) == Ok(ContractValue("C", Signed, Str("https://c.example/terms"), Str("did:key:z6mkA"),
                                                             Undefined, Undefined, Str("did:key:z6mkB"), Str("P")))
  {
    SpliceExampleOrder();
    var v1 := Effect(Initial("C"), ExampleOffer);
    var v2 := Effect(v1, ExampleAck);
    var v3 := Effect(v2, ExampleSigned);
    assert [ExampleOffer, ExampleAck, ExampleSigned][1..] == [ExampleAck, ExampleSigned];
    assert [ExampleAck, ExampleSigned][1..] == [ExampleSigned];
    assert [ExampleSigned][1..] == [];
    assert Fold(Initial("C"), [ExampleOffer, ExampleAck, ExampleSigned]) == Fold(v1, [ExampleAck, ExampleSigned]);
    assert Fold(v1, [ExampleAck, ExampleSigned]) == Fold(v2, [ExampleSigned]);
    assert Fold(v2, [ExampleSigned]) == v3;
  }

  // ----- offering and acknowledging -----

  /** The record `offerContract` appends, carrying the client's host URL. */
  function OfferedRecord(offerer: Value, contractUrl: Value, dropoff: Value, host: Value): Record {
    map["event" := Str("offered"), "offerer" := offerer, "contractUrl" := contractUrl,
        "signatureDropoffUrl" := dropoff, "jlinxHost" := host]
  }

  /** `v > 0` for a number or `undefined` (which converts to NaN, greater
      than nothing). */
  predicate GreaterThanZero(v: Value)
    requires v.Num? || v.Undefined?
  {
    v.Num? && v.n > 0
  }

  /** A mutation that reached the ledger: the store with the new entry
      committed, and what the `update()` run right after the append
      returned. An `Err` there is thrown to the caller, but the entry is
      already in the log. */
  datatype Committed = Committed(store: Store, update: Result<ContractValue>)

  /** `offerContract(options)` AS WRITTEN: its "already offered" guard reads
      `this.length`, which a Contract does not have, so it never fires and
      every call with both values present appends another offer. */
  function OfferContractAsWritten(store: Store, id: string, host: Value, options: Record, fuel: nat): (r: Result<Committed>)
    requires id in store
    ensures !Truthy(Get(options, "offerer")) ==> r == Err("offerer is required")
    ensures Truthy(Get(options, "offerer")) && !Truthy(Get(options, "contractUrl")) ==> r == Err("contractUrl is required")
    ensures r.Ok? <==> Truthy(Get(options, "offerer")) && Truthy(Get(options, "contractUrl"))
    ensures r.Ok? ==> r.value.store == store[id := store[id] + [OfferedRecord(Get(options, "offerer"), Get(options, "contractUrl"),
                                                                               Get(options, "signatureDropoffUrl"), host)]]
    ensures r.Ok? ==> r.value.update == Replay(r.value.store, id, fuel)
  {
    var offerer := Get(options, "offerer");
    var contractUrl := Get(options, "contractUrl");
    var length := Undefined;  // a Contract defines no `length`
    if !Truthy(offerer) then Err("offerer is required")
    else if !Truthy(contractUrl) then Err("contractUrl is required")
    else if GreaterThanZero(length) then Err("already offered")
    else
      var store' := store[id := store[id] + [OfferedRecord(offerer, contractUrl, Get(options, "signatureDropoffUrl"), host)]];
      Ok(Committed(store', Replay(store', id, fuel)))
  }

  /** `offerContract(options)` as evidently intended: a contract log that
      already holds entries is not offered again. */
  function OfferContract(store: Store, id: string, host: Value, options: Record, fuel: nat): (r: Result<Committed>)
    requires id in store
    ensures !Truthy(Get(options, "offerer")) ==> r == Err("offerer is required")
    ensures Truthy(Get(options, "offerer")) && !Truthy(Get(options, "contractUrl")) ==> r == Err("contractUrl is required")
    ensures Truthy(Get(options, "offerer")) && Truthy(Get(options, "contractUrl")) && |store[id]| > 0 ==>
      r == Err("already offered")
    ensures r.Ok? <==> Truthy(Get(options, "offerer")) && Truthy(Get(options, "contractUrl")) && |store[id]| == 0
    ensures r.Ok? ==> r.value.store == store[id := [OfferedRecord(Get(options, "offerer"), Get(options, "contractUrl"),
                                                                  Get(options, "signatureDropoffUrl"), host)]]
    ensures r.Ok? ==> r.value.update == Replay(r.value.store, id, fuel)
  {
    var offerer := Get(options, "offerer");
    var contractUrl := Get(options, "contractUrl");
    if !Truthy(offerer) then Err("offerer is required")
    else if !Truthy(contractUrl) then Err("contractUrl is required")
    else if |store[id]| > 0 then Err("already offered")
    else
      assert store[id] + [OfferedRecord(offerer, contractUrl, Get(options, "signatureDropoffUrl"), host)]
          == [OfferedRecord(offerer, contractUrl, Get(options, "signatureDropoffUrl"), host)];
      var store' := store[id := store[id] + [OfferedRecord(offerer, contractUrl, Get(options, "signatureDropoffUrl"), host)]];
      Ok(Committed(store', Replay(store', id, fuel)))
  }

  /** After a successful offer the `update()` that follows, and every later
      replay with any fuel, gives state `offered` with the offer's values and
      the client's host. */
  lemma OfferThenReplay(store: Store, id: string, host: Value, options: Record, fuel: nat, later: nat)
    requires id in store
    requires OfferContract(store, id, host, options, fuel).Ok?
    ensures var offered := Initial(id).(state := Offered, contractUrl := Get(options, "contractUrl"), offerer := Get(options, "offerer"),
                                        signatureDropoffUrl := Get(options, "signatureDropoffUrl"), jlinxHost := host);
      && OfferContract(store, id, host, options, fuel).value.update == Ok(offered)
      && Replay(OfferContract(store, id, host, options, fuel).value.store, id, later) == Ok(offered)
  {
    var store' := OfferContract(store, id, host, options, fuel).value.store;
    var offer := OfferedRecord(Get(options, "offerer"), Get(options, "contractUrl"), Get(options, "signatureDropoffUrl"), host);
    assert store'[id] == [offer];
    ExpandSpliceFree(store', store'[id], fuel);
    ExpandSpliceFree(store', store'[id], later);
    assert [offer][1..] == [];
    assert Fold(Initial(id), [offer]) == Effect(Initial(id), offer);
  }

  /** The offer-once bug: as written, a second offer with new values is
      appended and overwrites the first offer's values on replay. */
  lemma SecondOfferAcceptedAsWritten(store: Store, id: string, host: Value, first: Record, second: Record, fuel: nat)
    requires id in store && store[id] == []
    requires Truthy(Get(first, "offerer")) && Truthy(Get(first, "contractUrl"))
    requires Truthy(Get(second, "offerer")) && Truthy(Get(second, "contractUrl"))
    ensures var once := OfferContractAsWritten(store, id, host, first, fuel).value.store;
      && OfferContractAsWritten(once, id, host, second, fuel).Ok?
      && |OfferContractAsWritten(once, id, host, second, fuel).value.store[id]| == 2
      && OfferContractAsWritten(once, id, host, second, fuel).value.update.Ok?
      && OfferContractAsWritten(once, id, host, second, fuel).value.update.value.contractUrl == Get(second, "contractUrl")
    ensures var once := OfferContract(store, id, host, first, fuel).value.store;
      OfferContract(once, id, host, second, fuel) == Err("already offered")
  {
    var once := OfferContractAsWritten(store, id, host, first, fuel).value.store;
    var twice := OfferContractAsWritten(once, id, host, second, fuel).value.store;
    ExpandSpliceFree(twice, twice[id], fuel);
    OfferLastWins(Initial(id), twice[id], 1);
  }

  /** `ackSignerResponse(contractResponseId)`: replay, refuse unless the
      state is exactly `offered`, then append one `signerResponded` and
      replay again. The responder id is not checked before the append. */
  function AckSignerResponse(store: Store, id: string, responseId: Value, fuel: nat): (r: Result<Committed>)
    requires id in store
    ensures Replay(store, id, fuel).Err? ==> r == Err(Replay(store, id, fuel).error)
    ensures Replay(store, id, fuel).Ok? && Replay(store, id, fuel).value.state != Offered ==>
      r == Err("cannot acknowledge response. contract.state !== 'offered'")
    ensures r.Ok? <==> Replay(store, id, fuel).Ok? && Replay(store, id, fuel).value.state == Offered
    ensures r.Ok? ==> r.value.store == store[id := store[id] + [SpliceEntry(responseId)]]
    ensures r.Ok? ==> r.value.update == Replay(r.value.store, id, fuel)
  {
    var current := Replay(store, id, fuel);
    if current.Err? then Err(current.error)
    else if current.value.state != Offered then
      Err("cannot acknowledge response. contract.state !== 'offered'")
    else
      var store' := store[id := store[id] + [SpliceEntry(responseId)]];
      Ok(Committed(store', Replay(store', id, fuel)))
  }

  /** A queue holding a splice whose target cannot be fetched never settles:
      either the fuel runs out first or the fetch fails. */
  lemma {:induction false} MissingTargetNeverSettles(store: Store, queue: seq<Record>, fuel: nat, k: nat)
    requires k < |queue| && IsSplice(queue[k]) && Lookup(store, Target(queue[k])).Err?
    ensures Expand(store, queue, fuel).Err?
    decreases fuel, |queue|
  {
    if k > 0 {
      if IsSplice(queue[0]) {
        if fuel > 0 {
          var more := Lookup(store, Target(queue[0]));
          if more.Ok? {
            var next := queue[1..] + more.value;
            assert next[k - 1] == queue[k];
            MissingTargetNeverSettles(store, next, fuel - 1, k - 1);
          }
        }
      } else {
        assert queue[1..][k - 1] == queue[k];
        MissingTargetNeverSettles(store, queue[1..], fuel, k - 1);
      }
    }
  }

  /** Acknowledging a responder id the store does not hold commits the
      entry, makes the `update()` that follows throw, and leaves a contract
      that no later replay settles, whatever the fuel. */
  lemma AckUnknownResponderBreaksContract(store: Store, id: string, responseId: Value, fuel: nat, later: nat)
    requires id in store
    requires AckSignerResponse(store, id, responseId, fuel).Ok?
    requires !(responseId.Str? && responseId.s in store)
    ensures AckSignerResponse(store, id, responseId, fuel).value.update.Err?
    ensures Replay(AckSignerResponse(store, id, responseId, fuel).value.store, id, later).Err?
  {
    var store' := AckSignerResponse(store, id, responseId, fuel).value.store;
    var log := store'[id];
    var k := |log| - 1;
    assert log[k] == SpliceEntry(responseId);
    assert Lookup(store', Target(log[k])).Err?;
    MissingTargetNeverSettles(store', log, fuel, k);
    MissingTargetNeverSettles(store', log, later, k);
  }

  /** Acknowledging the contract itself as its responder, on a log without
      splices, commits a self-reference that no replay settles. */
  lemma AckSelfBreaksContract(store: Store, id: string, fuel: nat, later: nat)
    requires id in store
    requires AckSignerResponse(store, id, Str(id), fuel).Ok?
    requires forall i :: 0 <= i < |store[id]| ==> !IsSplice(store[id][i])
    ensures AckSignerResponse(store, id, Str(id), fuel).value.update == Err(FuelExhausted)
    ensures Replay(AckSignerResponse(store, id, Str(id), fuel).value.store, id, later) == Err(FuelExhausted)
  {
    var store' := AckSignerResponse(store, id, Str(id), fuel).value.store;
    SelfReferenceNeverSettles(store', id, store[id], fuel);
    SelfReferenceNeverSettles(store', id, store[id], later);
  }

  /** A contract with no entries cannot be acknowledged. */
  lemma AckBeforeOfferRefused(store: Store, id: string, responseId: Value, fuel: nat)
    requires id in store && store[id] == []
    ensures AckSignerResponse(store, id, responseId, fuel) == Err("cannot acknowledge response. contract.state !== 'offered'")
  {
  }

  predicate NotOffered(e: Record) {
    !IsEvent(e, "offered")
  }

  /** Appending a splice to a log inside a closed part of the store keeps
      that part closed and free of splices back to the log, provided the
      splice's target is in the part and is not the log itself. */
  lemma AckedSubStore(store: Store, sub: Store, id: string, responseId: Value)
    requires id in store && SubStore(sub, store) && Closed(sub) && id in sub
    requires responseId.Str? && responseId.s in sub && responseId != Str(id)
    requires NoSpliceTo(sub, sub[id], id)
    ensures var log := store[id] + [SpliceEntry(responseId)];
      && SubStore(sub[id := log], store[id := log])
      && Closed(sub[id := log])
      && NoSpliceTo(sub[id := log], log, id)
  {
    var log := store[id] + [SpliceEntry(responseId)];
    var sub' := sub[id := log];
    assert log == sub[id] + [SpliceEntry(responseId)];
    assert QueueInside(sub, sub[id]);
    assert QueueInside(sub', log) by {
      forall i | 0 <= i < |log| && IsSplice(log[i]) ensures Target(log[i]).Str? && Target(log[i]).s in sub' {
        if i < |sub[id]| { assert log[i] == sub[id][i]; }
      }
    }
    assert Closed(sub') by {
      forall d | d in sub' && d != id ensures QueueInside(sub', sub'[d]) {
        assert QueueInside(sub, sub[d]);
      }
    }
    assert forall i :: 0 <= i < |log| && IsSplice(log[i]) ==> Target(log[i]) != Str(id) by {
      forall i | 0 <= i < |log| && IsSplice(log[i]) ensures Target(log[i]) != Str(id) {
        if i < |sub[id]| { assert log[i] == sub[id][i]; }
      }
    }
  }

  /** After one acknowledgement the contract replays as `signed`, so a
      second acknowledgement is refused. This holds when the logs the
      replay reaches (a closed part `sub` of the store holding the contract
      and the responder) hold no other offer and no splice back to the
      contract; other logs in the store may hold anything. */
  lemma SecondAckRefused(store: Store, sub: Store, id: string, responseId: Value, again: Value, fuel: nat)
    requires id in store
    requires AckSignerResponse(store, id, responseId, fuel).Ok?
    requires SubStore(sub, store) && Closed(sub) && id in sub
    requires responseId.Str? && responseId.s in sub && responseId != Str(id)
    requires NoSpliceTo(sub, sub[id], id)
    requires forall d :: d in sub && d != id ==> AllSatisfy(sub[d], NotOffered)
    requires AckSignerResponse(store, id, responseId, fuel).value.update.Ok?
    ensures AckSignerResponse(store, id, responseId, fuel).value.update.value.state == Signed
    ensures AckSignerResponse(AckSignerResponse(store, id, responseId, fuel).value.store, id, again, fuel)
         == Err("cannot acknowledge response. contract.state !== 'offered'")
  {
    var store' := AckSignerResponse(store, id, responseId, fuel).value.store;
    var log := store'[id];
    var sub' := sub[id := log];
    AckedSubStore(store, sub, id, responseId);
    ExpandReadsOnlyReached(store', sub', log, fuel);
    var o := Expand(sub', log, fuel).value;
    ExpandTailFromOthers(sub', log, fuel, id, NotOffered);
    ExpandPrefix(sub', log, fuel);
    var i := |log| - 1;
    assert o[i] == log[i] == SpliceEntry(responseId);
    forall j | i < j < |o| ensures !IsEvent(o[j], "offered") {
      assert NotOffered(o[j]);
    }
    ResponseLastWins(Initial(id), o, i);
  }

  // A host holding two offered contracts and an empty responder log.
  const TwoContracts: Store := map["C1" := [ExampleOffer], "C2" := [ExampleOffer], "P" := []]

  /** `C1` on that host replays as offered. */
  lemma TwoContractsOffered()
    ensures Replay(TwoContracts, "C1", 1).Ok? && Replay(TwoContracts, "C1", 1).value.state == Offered
  {
    assert !IsSplice(ExampleOffer) && IsEvent(ExampleOffer, "offered");
    assert TwoContracts["C1"] == [ExampleOffer];
    ExpandSpliceFree(TwoContracts, [ExampleOffer], 1);
    assert [ExampleOffer][1..] == [];
    assert Fold(Initial("C1"), [ExampleOffer]) == Fold(Effect(Initial("C1"), ExampleOffer), []);
  }

  /** `C1` acknowledged with `P` replays without error. */
  lemma TwoContractsAckSettles()
    ensures var store' := TwoContracts["C1" := [ExampleOffer] + [SpliceEntry(Str("P"))]];
      Replay(store', "C1", 1).Ok?
  {
    var store' := TwoContracts["C1" := [ExampleOffer] + [SpliceEntry(Str("P"))]];
    var log := store'["C1"];
    assert log == [ExampleOffer, ExampleAck];
    assert !IsSplice(ExampleOffer);
    assert IsSplice(ExampleAck) && Target(ExampleAck) == Str("P");
    assert Lookup(store', Str("P")) == Ok([]);
    assert log[1..] == [ExampleAck];
    assert [ExampleAck][1..] + [] == [];
    assert Expand(store', [], 0) == Ok([]);
    assert Expand(store', [ExampleAck], 1).Ok?;
  }

  /** The logs a replay of `C1` reaches on that host. */
  const ReachedFromC1: Store := map["C1" := [ExampleOffer], "P" := []]

  lemma ReachedFromC1Closed()
    ensures SubStore(ReachedFromC1, TwoContracts) && Closed(ReachedFromC1)
    ensures NoSpliceTo(ReachedFromC1, ReachedFromC1["C1"], "C1")
    ensures forall d :: d in ReachedFromC1 && d != "C1" ==> AllSatisfy(ReachedFromC1[d], NotOffered)
  {
    assert !IsSplice(ExampleOffer);
    assert ReachedFromC1.Keys == {"C1", "P"};
  }

  /** On that host, acknowledging `C1` with `P` signs it, and a second
      acknowledgement is refused, though `C2` still holds an offer. */
  lemma TwoContractsSecondAckRefused(again: Value)
    ensures AckSignerResponse(TwoContracts, "C1", Str("P"), 1).Ok?
    ensures AckSignerResponse(TwoContracts, "C1", Str("P"), 1).value.update.Ok?
    ensures AckSignerResponse(TwoContracts, "C1", Str("P"), 1).value.update.value.state == Signed
    ensures AckSignerResponse(AckSignerResponse(TwoContracts, "C1", Str("P"), 1).value.store, "C1", again, 1)
         == Err("cannot acknowledge response. contract.state !== 'offered'")
  {
    TwoContractsOffered();
    TwoContractsAckSettles();
    ReachedFromC1Closed();
    SecondAckRefused(TwoContracts, ReachedFromC1, "C1", Str("P"), again, 1);
  }

  /** A host where another contract acknowledges a response that is gone:
      the store as a whole has no ranking, yet `C1` still replays. */
  const DanglingElsewhere: Store := map["C1" := [ExampleOffer], "C2" := [ExampleOffer, SpliceEntry(Str("gone"))]]

  lemma DanglingElsewhereUnranked(rank: map<string, nat>)
    ensures !Ranked(DanglingElsewhere, rank)
  {
    var log := DanglingElsewhere["C2"];
    assert IsSplice(log[1]) && Target(log[1]) == Str("gone") && "gone" !in DanglingElsewhere;
  }

  lemma DanglingElsewhereReplays(fuel: nat)
    ensures Replay(DanglingElsewhere, "C1", fuel).Ok?
  {
    var sub: Store := map["C1" := [ExampleOffer]];
    var rank: map<string, nat> := map["C1" := 0];
    assert !IsSplice(ExampleOffer);
    assert QueueBelow(sub, rank, sub["C1"], 0);
    assert SubStore(sub, DanglingElsewhere);
    ReplaySettlesReached(DanglingElsewhere, sub, rank, "C1", fuel);
  }

  // ----- the responder's log -----

  datatype PartyState = PartyUnset | PartyRejected | PartySigned

  /** The replayed `ContractParty.value`. */
  datatype PartyValue = PartyValue(state: PartyState, contractId: Value, signer: Value)

  const EmptyParty := PartyValue(PartyUnset, Undefined, Undefined)

  predicate IsResolution(e: Record) {
    IsEvent(e, "rejected") || IsEvent(e, "signed")
  }

  /** The value a resolution entry records. */
  function Resolution(e: Record): PartyValue
    requires IsResolution(e)
  {
    PartyValue(if IsEvent(e, "rejected") then PartyRejected else PartySigned, Get(e, "contractId"), Get(e, "signer"))
  }

  /** `entries[i]` is the last resolution among `entries[..n]`. */
  predicate LastResolutionAt(entries: seq<Record>, n: nat, i: nat)
    requires n <= |entries|
  {
    i < n && IsResolution(entries[i]) && forall j :: i < j < n ==> !IsResolution(entries[j])
  }

  /** `ContractParty.update()`: every field comes from the last `rejected`
      or `signed` entry, and any other entry is ignored. */
  method PartyUpdate(entries: seq<Record>) returns (r: PartyValue)
    ensures (forall i :: 0 <= i < |entries| ==> !IsResolution(entries[i])) ==> r == EmptyParty
    ensures forall i :: 0 <= i < |entries| && LastResolutionAt(entries, |entries|, i) ==> r == Resolution(entries[i])
  {
    r := EmptyParty;
    var k := 0;
    ghost var last: int := -1;
    while k < |entries|
      invariant 0 <= k <= |entries|
      invariant -1 <= last < k
      invariant last == -1 ==> r == EmptyParty && forall i :: 0 <= i < k ==> !IsResolution(entries[i])
      invariant last >= 0 ==> LastResolutionAt(entries, k, last) && r == Resolution(entries[last])
    {
      var entry := entries[k];
      if IsEvent(entry, "rejected") || IsEvent(entry, "signed") {
        r := Resolution(entry);
        last := k;
      }
      k := k + 1;
    }
    forall i | 0 <= i < |entries| && LastResolutionAt(entries, |entries|, i) ensures r == Resolution(entries[i]) {
      assert i == last;
    }
  }

  /** The record `ContractParty.sign` appends. */
  function SignedRecord(identifier: Value, contractId: string): Record {
    map["event" := Str("signed"), "signer" := identifier, "contractId" := Str(contractId)]
  }

  /** `ContractParty.sign({ identifier, contract })`: replay the contract
      (a failure there aborts), then append one `signed` entry naming the
      signer and the contract, whatever state the contract is in. */
  function PartySign(store: Store, partyId: string, contractId: string, identifier: Value, fuel: nat): (r: Result<Store>)
    requires partyId in store && contractId in store
    ensures r.Ok? <==> Replay(store, contractId, fuel).Ok?
    ensures r.Err? ==> r.error == Replay(store, contractId, fuel).error
    ensures r.Ok? ==> r.value == store[partyId := store[partyId] + [SignedRecord(identifier, contractId)]]
  {
    var contract := Replay(store, contractId, fuel);
    if contract.Err? then Err(contract.error)
    else Ok(store[partyId := store[partyId] + [SignedRecord(identifier, contractId)]])
  }

  datatype Move = Reject | Sign

  /** `Contract._resolve(move, opts)`: a fresh responder log `newId` is
      created and the move made on it; `reject` is a stub that appends
      nothing. */
  function ResolveParty(store: Store, contractId: string, newId: string, move: Move, opts: Record, fuel: nat): (r: Result<Store>)
    requires contractId in store && newId !in store
    ensures r.Ok? ==> newId in r.value && r.value - {newId} == store - {newId}
    ensures move == Reject ==> r == Ok(store[newId := []])
    ensures move == Sign ==> (r.Ok? <==> Replay(store[newId := []], contractId, fuel).Ok?)
    ensures move == Sign && r.Ok? ==> r.value[newId] == [SignedRecord(Get(opts, "identifier"), contractId)]
  {
    var created := store[newId := []];
    match move
    case Reject => Ok(created)
    case Sign => PartySign(created, newId, contractId, Get(opts, "identifier"), fuel)
  }

  /** A contract log without splices needs no fuel: it replays to its
      entries applied in order. */
  lemma ReplaySpliceFree(store: Store, id: string, fuel: nat)
    requires id in store
    ensures (forall i :: 0 <= i < |store[id]| ==> !IsSplice(store[id][i])) ==>
      Replay(store, id, fuel) == Ok(Fold(Initial(id), store[id]))
  {
    if forall i :: 0 <= i < |store[id]| ==> !IsSplice(store[id][i]) {
      ExpandSpliceFree(store, store[id], fuel);
    }
  }

  /** `_open(Contract, id)`: fetch the log and replay it. An id that names
      no stored log is an error; an opened contract carries the id it was
      opened under; a log without splices needs no fuel and always opens,
      to its entries applied in order. */
  function OpenContract(store: Store, id: Value, fuel: nat): (r: Result<ContractValue>)
    ensures !(id.Str? && id.s in store) ==> r == Err("document not found: " + ToJsString(id))
    ensures r.Ok? ==> id == Str(r.value.contractId)
    ensures id.Str? && id.s in store && (forall i :: 0 <= i < |store[id.s]| ==> !IsSplice(store[id.s][i])) ==>
      r == Ok(Fold(Initial(id.s), store[id.s]))
    ensures id.Str? && id.s in store ==> r == Replay(store, id.s, fuel)
  {
    var log := Lookup(store, id);
    if log.Err? then Err(log.error)
    else
      ReplaySpliceFree(store, id.s, fuel);
      Replay(store, id.s, fuel)
  }

  /** `ContractParty.contract()`: the contract named by the party log's
      first entry. A log without entries has no first entry to destructure;
      a contract that opens is the one the first entry names. */
  function PartyContract(store: Store, partyId: string, fuel: nat): (r: Result<ContractValue>)
    requires partyId in store
    ensures |store[partyId]| == 0 ==> r == Err(DestructureError("contractId", "(intermediate value)", Undefined))
    ensures r.Ok? ==> |store[partyId]| > 0 && Get(store[partyId][0], "contractId") == Str(r.value.contractId)
    ensures r.Ok? ==> r.value.contractId in store
    ensures |store[partyId]| > 0 && !Get(store[partyId][0], "contractId").Str? ==> r.Err?
  {
    if |store[partyId]| == 0 then
      Err(DestructureError("contractId", "(intermediate value)", Undefined))
    else
      OpenContract(store, Get(store[partyId][0], "contractId"), fuel)
  }

  /** A responder log created by `sign` points back at its contract, and
      replays as signed by the given identifier; one created by `reject`
      records nothing. */
  lemma ResolvePointsBack(store: Store, contractId: string, newId: string, opts: Record, fuel: nat)
    requires contractId in store && newId !in store
    ensures var r := ResolveParty(store, contractId, newId, Sign, opts, fuel);
      r.Ok? ==>
        && PartyContract(r.value, newId, fuel) == Replay(r.value, contractId, fuel)
        && r.value[newId] == [SignedRecord(Get(opts, "identifier"), contractId)]
        && LastResolutionAt(r.value[newId], 1, 0)
        && Resolution(r.value[newId][0]) == PartyValue(PartySigned, Str(contractId), Get(opts, "identifier"))
    ensures var r := ResolveParty(store, contractId, newId, Reject, opts, fuel);
      r.Ok? && r.value[newId] == []
  {
  }
}
