/**
 `proxy/src/network/bypass-set.ts`: the addresses to bypass and their deadlines, kept in memory so
 that every rebuild of the table can carry them over. Times are milliseconds, timeouts seconds.
 */
module BypassSet {
  import opened Wrappers
  import Ipv4
  import Nft

  const GRACE_SECONDS := 60
  const MAX_TTL_SECONDS := 3600

  datatype ARecord = ARecord(address: string, ttl: int)

  /** A JavaScript `Map`: the entries, and the order in which the keys were first inserted. */
  datatype Held = Held(order: seq<string>, expiresAt: map<string, int>)

  const NOTHING_HELD := Held([], map[])

  ghost predicate Consistent(h: Held) {
    && (forall a :: a in h.order <==> a in h.expiresAt)
    && (forall i, j :: 0 <= i < j < |h.order| ==> h.order[i] != h.order[j])
  }

  predicate IsBypassableAddress(address: string) {
    match Ipv4.ParseIpv4(address)
    case None => false
    case Some(o) => o[0] != 0 && o[0] != 127 && !(o[0] == 169 && o[1] == 254)
  }

  function Timeout(ttl: int): (t: int)
    ensures GRACE_SECONDS <= t <= MAX_TTL_SECONDS + GRACE_SECONDS
  {
    var floored := if ttl < 0 then 0 else ttl;
    (if floored > MAX_TTL_SECONDS then MAX_TTL_SECONDS else floored) + GRACE_SECONDS
  }

  // ---------------------------------------------------------------- the operations on values

  function SetExpiry(h: Held, address: string, expiry: int): Held {
    Held(if address in h.expiresAt then h.order else h.order + [address], h.expiresAt[address := expiry])
  }

  /** Registers one record, or extends the deadline it already has. */
  function AddOne(h: Held, now: int, r: ARecord): Held {
    var expiry := now + 1000 * Timeout(r.ttl);
    if IsBypassableAddress(r.address) && (r.address !in h.expiresAt || expiry > h.expiresAt[r.address])
    then SetExpiry(h, r.address, expiry) else h
  }

  function AddAll(h: Held, now: int, records: seq<ARecord>): Held {
    if records == [] then h
    else AddOne(AddAll(h, now, records[..|records| - 1]), now, records[|records| - 1])
  }

  /** The elements to hand to nft for a batch of records. */
  function Added(records: seq<ARecord>): seq<Nft.Element> {
    if records == [] then []
    else
      var r := records[|records| - 1];
      Added(records[..|records| - 1]) +
      (if IsBypassableAddress(r.address) then [Nft.Element(r.address, Timeout(r.ttl))] else [])
  }

  /** Whole seconds left, rounded up, never below one. */
  function Remaining(expiry: int, now: int): int {
    var seconds := if expiry - now <= 0 then 0 else (expiry - now + 999) / 1000;
    if seconds < 1 then 1 else seconds
  }

  function LiveOrder(order: seq<string>, expiresAt: map<string, int>, now: int): seq<string>
    requires forall a :: a in order ==> a in expiresAt
  {
    if order == [] then []
    else
      var last := order[|order| - 1];
      LiveOrder(order[..|order| - 1], expiresAt, now) + (if expiresAt[last] <= now then [] else [last])
  }

  function Pruned(h: Held, now: int): Held
    requires forall a :: a in h.order ==> a in h.expiresAt
  {
    Held(LiveOrder(h.order, h.expiresAt, now), map a | a in h.expiresAt && h.expiresAt[a] > now :: h.expiresAt[a])
  }

  /** The unexpired entries with their remaining seconds, in insertion order. */
  function EntriesOf(order: seq<string>, expiresAt: map<string, int>, now: int): seq<Nft.Element>
    requires forall a :: a in order ==> a in expiresAt
  {
    if order == [] then []
    else
      var last := order[|order| - 1];
      EntriesOf(order[..|order| - 1], expiresAt, now) +
      (if expiresAt[last] <= now then [] else [Nft.Element(last, Remaining(expiresAt[last], now))])
  }

  function LiveOf(h: Held, now: int): seq<Nft.Element>
    requires forall a :: a in h.order ==> a in h.expiresAt
  {
    EntriesOf(h.order, h.expiresAt, now)
  }

  // ---------------------------------------------------------------- consistency

  lemma {:induction false} AddAllConsistent(h: Held, now: int, records: seq<ARecord>)
    requires Consistent(h)
    ensures Consistent(AddAll(h, now, records))
  {
    if records != [] {
      AddAllConsistent(h, now, records[..|records| - 1]);
    }
  }

  lemma {:induction false} LiveOrderMembers(order: seq<string>, expiresAt: map<string, int>, now: int)
    requires forall a :: a in order ==> a in expiresAt
    requires forall i, j :: 0 <= i < j < |order| ==> order[i] != order[j]
    ensures var live := LiveOrder(order, expiresAt, now);
            && (forall a :: a in live <==> a in order && expiresAt[a] > now)
            && (forall i, j :: 0 <= i < j < |live| ==> live[i] != live[j])
  {
    if order != [] {
      var front, last := order[..|order| - 1], order[|order| - 1];
      LiveOrderMembers(front, expiresAt, now);
      assert forall a :: a in order <==> a in front || a == last;
      assert last !in front;
    }
  }

  lemma PrunedConsistent(h: Held, now: int)
    requires Consistent(h)
    ensures Consistent(Pruned(h, now))
  {
    LiveOrderMembers(h.order, h.expiresAt, now);
  }

  lemma LiveNone(all: map<string, int>, now: int)
    ensures LiveOrder([], all, now) == [] && EntriesOf([], all, now) == []
  {
  }

  lemma LiveSnoc(keys: seq<string>, i: nat, all: map<string, int>, now: int)
    requires i < |keys| && forall a :: a in keys ==> a in all
    ensures LiveOrder(keys[..i + 1], all, now)
            == LiveOrder(keys[..i], all, now) + (if all[keys[i]] <= now then [] else [keys[i]])
    ensures EntriesOf(keys[..i + 1], all, now)
            == EntriesOf(keys[..i], all, now)
               + (if all[keys[i]] <= now then [] else [Nft.Element(keys[i], Remaining(all[keys[i]], now))])
  {
    assert keys[..i + 1][..i] == keys[..i];
  }

  lemma PrunedKeepsUnexpired(h: Held, now: int, left: map<string, int>)
    requires Consistent(h)
    requires forall a :: a in left ==> a in h.expiresAt && left[a] == h.expiresAt[a]
    requires forall j :: 0 <= j < |h.order| ==> (h.order[j] in left <==> h.expiresAt[h.order[j]] > now)
    ensures left == Pruned(h, now).expiresAt
  {
    forall a ensures a in left <==> a in Pruned(h, now).expiresAt {
      if a in h.expiresAt {
        assert a in h.order;
        var j :| 0 <= j < |h.order| && h.order[j] == a;
      }
    }
  }

  // ---------------------------------------------------------------- the class

  class BypassSet {
    var order: seq<string>
    var expiresAt: map<string, int>

    ghost predicate Valid()
      reads this
    {
      Consistent(Contents())
    }

    function Contents(): Held
      reads this
    {
      Held(order, expiresAt)
    }

    constructor ()
      ensures Valid() && Contents() == NOTHING_HELD
    {
      order, expiresAt := [], map[];
    }

    method Add(records: seq<ARecord>, now: int) returns (added: seq<Nft.Element>)
      requires Valid()
      modifies this
      ensures Valid()
      ensures Contents() == AddAll(old(Contents()), now, records)
      ensures added == Added(records)
    {
      added := [];
      for i := 0 to |records|
        invariant Contents() == AddAll(old(Contents()), now, records[..i])
        invariant added == Added(records[..i])
      {
        var r := records[i];
        assert records[..i + 1][..i] == records[..i];
        if IsBypassableAddress(r.address) {
          var timeoutSeconds := Timeout(r.ttl);
          var expiry := now + timeoutSeconds * 1000;
          if r.address !in expiresAt || expiry > expiresAt[r.address] {
            if r.address !in expiresAt {
              order := order + [r.address];
            }
            expiresAt := expiresAt[r.address := expiry];
          }
          added := added + [Nft.Element(r.address, timeoutSeconds)];
        }
      }
      assert records[..|records|] == records;
      AddAllConsistent(old(Contents()), now, records);
    }

    /** Returns the unexpired entries and forgets the expired ones. */
    method Live(now: int) returns (entries: seq<Nft.Element>)
      requires Valid()
      modifies this
      ensures Valid()
      ensures Contents() == Pruned(old(Contents()), now)
      ensures entries == LiveOf(old(Contents()), now)
    {
      hide LiveOrder, EntriesOf, Remaining, IsBypassableAddress;
      entries := [];
      var keys, all := order, expiresAt;
      var kept: seq<string> := [];
      LiveNone(all, now);
      assert keys[..0] == [];
      for i := 0 to |keys|
        invariant kept == LiveOrder(keys[..i], all, now)
        invariant entries == EntriesOf(keys[..i], all, now)
        invariant forall a :: a in expiresAt ==> a in all && expiresAt[a] == all[a]
        invariant forall j :: 0 <= j < i ==> (keys[j] in expiresAt <==> all[keys[j]] > now)
        invariant forall j :: i <= j < |keys| ==> keys[j] in expiresAt
      {
        var address := keys[i];
        LiveSnoc(keys, i, all, now);
        if all[address] <= now {
          expiresAt := expiresAt - {address};
        } else {
          kept := kept + [address];
          entries := entries + [Nft.Element(address, Remaining(all[address], now))];
        }
      }
      assert keys[..|keys|] == keys;
      order := kept;
      PrunedKeepsUnexpired(old(Contents()), now, expiresAt);
      PrunedConsistent(old(Contents()), now);
    }

    method Size(now: int) returns (n: nat)
      requires Valid()
      modifies this
      ensures Valid() && Contents() == Pruned(old(Contents()), now)
      ensures n == |LiveOf(old(Contents()), now)|
    {
      var entries := Live(now);
      n := |entries|;
    }

    method Clear()
      modifies this
      ensures Valid() && Contents() == NOTHING_HELD
    {
      order, expiresAt := [], map[];
    }
  }

  // ---------------------------------------------------------------- histories

  datatype Op = Add(records: seq<ARecord>) | Rebuild | Clear | Tick(ms: nat)

  datatype Memory = Memory(held: Held, now: int)

  function Step(m: Memory, op: Op): Memory
    requires Consistent(m.held)
  {
    match op
    case Add(records) => m.(held := AddAll(m.held, m.now, records))
    case Rebuild => m.(held := Pruned(m.held, m.now))
    case Clear => m.(held := NOTHING_HELD)
    case Tick(ms) => m.(now := m.now + ms)
  }

  /** Any history of additions, rebuilds, clears and passing time. */
  function Run(ops: seq<Op>, start: int): (m: Memory)
    ensures Consistent(m.held)
  {
    if ops == [] then Memory(NOTHING_HELD, start)
    else
      var before := Run(ops[..|ops| - 1], start);
      var op := ops[|ops| - 1];
      assert Consistent(Step(before, op).held) by {
        if op.Add? {
          AddAllConsistent(before.held, before.now, op.records);
        } else {
          PrunedConsistent(before.held, before.now);
        }
      }
      Step(before, op)
  }

  /** The history registers `a` at step `k`, with deadline `expiry`, and is not cleared afterwards. */
  ghost predicate Registers(ops: seq<Op>, start: int, k: nat, j: nat, a: string, expiry: int) {
    && k < |ops| && ops[k].Add? && j < |ops[k].records|
    && ops[k].records[j].address == a && IsBypassableAddress(a)
    && expiry == Run(ops[..k], start).now + 1000 * Timeout(ops[k].records[j].ttl)
    && (forall l :: k < l < |ops| ==> !ops[l].Clear?)
  }

  /** The deadline is that of some registration since the last clear, and no other is later. */
  ghost predicate IsLatestDeadline(ops: seq<Op>, start: int, a: string, expiry: int) {
    && (exists k, j :: Registers(ops, start, k, j, a, expiry))
    && (forall k, j, x :: Registers(ops, start, k, j, a, x) ==> x <= expiry)
  }

  lemma RegistersExtends(ops: seq<Op>, op: Op, start: int, k: nat, j: nat, a: string, x: int)
    requires !op.Clear? && k < |ops|
    ensures Registers(ops + [op], start, k, j, a, x) <==> Registers(ops, start, k, j, a, x)
  {
    var all := ops + [op];
    assert all[..k] == ops[..k];
    assert all[k] == ops[k];
    assert forall l :: 0 <= l < |ops| ==> all[l] == ops[l];
    if Registers(ops, start, k, j, a, x) {
      forall l | k < l < |all| ensures !all[l].Clear? {
        if l < |ops| {
          assert all[l] == ops[l];
        }
      }
    }
    if Registers(all, start, k, j, a, x) {
      forall l | k < l < |ops| ensures !ops[l].Clear? {
        assert all[l] == ops[l];
      }
    }
  }

  /** Deadlines a batch gives to one address. */
  ghost predicate InBatch(records: seq<ARecord>, now: int, j: nat, a: string, x: int) {
    j < |records| && records[j].address == a && IsBypassableAddress(a) && x == now + 1000 * Timeout(records[j].ttl)
  }

  /** After a batch, an address's deadline is the latest of what it had and what the batch gives. */
  lemma {:induction false} AddAllTakesMaximum(h: Held, now: int, records: seq<ARecord>, a: string)
    ensures var h' := AddAll(h, now, records);
            && (a in h.expiresAt ==> a in h'.expiresAt && h.expiresAt[a] <= h'.expiresAt[a])
            && (forall j, x :: InBatch(records, now, j, a, x) ==> a in h'.expiresAt && x <= h'.expiresAt[a])
            && (a in h'.expiresAt ==>
                  || (a in h.expiresAt && h.expiresAt[a] == h'.expiresAt[a])
                  || exists j :: InBatch(records, now, j, a, h'.expiresAt[a]))
  {
    if records != [] {
      var front := records[..|records| - 1];
      AddAllTakesMaximum(h, now, front, a);
      var h1, h' := AddAll(h, now, front), AddAll(h, now, records);
      assert forall j: nat, x :: j < |front| ==> (InBatch(records, now, j, a, x) <==> InBatch(front, now, j, a, x));
      if a in h'.expiresAt {
        if a in h1.expiresAt && h1.expiresAt[a] == h'.expiresAt[a] {
          if !(a in h.expiresAt && h.expiresAt[a] == h'.expiresAt[a]) {
            var j :| InBatch(front, now, j, a, h'.expiresAt[a]);
            assert InBatch(records, now, j, a, h'.expiresAt[a]);
          }
        } else {
          assert InBatch(records, now, |records| - 1, a, h'.expiresAt[a]);
        }
      }
    }
  }

  /**
   No drift: whatever the history, a held deadline is the latest of the registrations since the last
   clear, and an address with an unexpired registration is held. Rebuilds change neither.
   */
  lemma {:induction false} DeadlineIsLatest(ops: seq<Op>, start: int, a: string)
    ensures var m := Run(ops, start);
            && (a in m.held.expiresAt ==> IsLatestDeadline(ops, start, a, m.held.expiresAt[a]))
            && (forall k, j, x :: Registers(ops, start, k, j, a, x) && x > m.now ==> a in m.held.expiresAt)
  {
    if ops != [] {
      var front, op := ops[..|ops| - 1], ops[|ops| - 1];
      assert ops == front + [op];
      DeadlineIsLatest(front, start, a);
      match op
      case Add(records) => LatestAfterAdd(front, records, start, a);
      case Rebuild => LatestCarriesOver(front, op, start, a);
      case Clear =>
        assert forall k, j, x :: !Registers(ops, start, k, j, a, x);
      case Tick(_) => LatestCarriesOver(front, op, start, a);
    }
  }

  lemma LatestCarriesOver(front: seq<Op>, op: Op, start: int, a: string)
    requires op.Rebuild? || op.Tick?
    requires var m := Run(front, start);
            && (a in m.held.expiresAt ==> IsLatestDeadline(front, start, a, m.held.expiresAt[a]))
            && (forall k, j, x :: Registers(front, start, k, j, a, x) && x > m.now ==> a in m.held.expiresAt)
    ensures var m := Run(front + [op], start);
            && (a in m.held.expiresAt ==> IsLatestDeadline(front + [op], start, a, m.held.expiresAt[a]))
            && (forall k, j, x :: Registers(front + [op], start, k, j, a, x) && x > m.now ==> a in m.held.expiresAt)
  {
    var ops := front + [op];
    assert ops[..|ops| - 1] == front;
    forall k: nat, j: nat, x | k < |front|
      ensures Registers(ops, start, k, j, a, x) <==> Registers(front, start, k, j, a, x)
    {
      RegistersExtends(front, op, start, k, j, a, x);
    }
    var m0, m := Run(front, start), Run(ops, start);
    assert m == Step(m0, op);
    if a in m.held.expiresAt {
      var x := m0.held.expiresAt[a];
      var k, j :| Registers(front, start, k, j, a, x);
      assert Registers(ops, start, k, j, a, x);
      assert IsLatestDeadline(ops, start, a, x);
    }
    forall k, j, x | Registers(ops, start, k, j, a, x) && x > m.now ensures a in m.held.expiresAt {
      assert Registers(front, start, k, j, a, x);
      assert m0.held.expiresAt[a] >= x;
    }
  }

  lemma LatestAfterAdd(front: seq<Op>, records: seq<ARecord>, start: int, a: string)
    requires var m := Run(front, start);
            && (a in m.held.expiresAt ==> IsLatestDeadline(front, start, a, m.held.expiresAt[a]))
            && (forall k, j, x :: Registers(front, start, k, j, a, x) && x > m.now ==> a in m.held.expiresAt)
    ensures var m := Run(front + [Add(records)], start);
            && (a in m.held.expiresAt ==> IsLatestDeadline(front + [Add(records)], start, a, m.held.expiresAt[a]))
            && (forall k, j, x :: Registers(front + [Add(records)], start, k, j, a, x) && x > m.now
                  ==> a in m.held.expiresAt)
  {
    var op := Add(records);
    var ops := front + [op];
    assert ops[..|ops| - 1] == front && ops[|front|] == op && ops[..|front|] == front;
    var m0, m := Run(front, start), Run(ops, start);
    AddAllTakesMaximum(m0.held, m0.now, records, a);
    forall k: nat, j: nat, x | k < |front|
      ensures Registers(ops, start, k, j, a, x) <==> Registers(front, start, k, j, a, x)
    {
      RegistersExtends(front, op, start, k, j, a, x);
    }
    assert forall j, x :: InBatch(records, m0.now, j, a, x) <==> Registers(ops, start, |front|, j, a, x);
    if a in m.held.expiresAt {
      var best := m.held.expiresAt[a];
      if a in m0.held.expiresAt && m0.held.expiresAt[a] == best {
        var k, j :| Registers(front, start, k, j, a, best);
        assert Registers(ops, start, k, j, a, best);
      } else {
        var j :| InBatch(records, m0.now, j, a, best);
        assert Registers(ops, start, |front|, j, a, best);
      }
      forall k, j, x | Registers(ops, start, k, j, a, x) ensures x <= best {
        if k == |front| {
          assert InBatch(records, m0.now, j, a, x);
        } else {
          assert Registers(front, start, k, j, a, x);
          // A registration no longer held has expired, and what the batch gives is still ahead.
          assert a in m0.held.expiresAt ==> x <= m0.held.expiresAt[a];
          assert a !in m0.held.expiresAt ==> x <= m0.now;
        }
      }
    }
  }

  /** A deadline lies between 60 s and 3660 s after the registration it comes from. */
  lemma DeadlineNearRegistration(ops: seq<Op>, start: int, k: nat, j: nat, a: string, expiry: int)
    requires Registers(ops, start, k, j, a, expiry)
    ensures Run(ops[..k], start).now + 60_000 <= expiry <= Run(ops[..k], start).now + 3_660_000
  {
  }

  lemma {:induction false} LiveEntriesFromOrder(order: seq<string>, expiresAt: map<string, int>, now: int, e: Nft.Element)
    requires forall a :: a in order ==> a in expiresAt
    ensures e in EntriesOf(order, expiresAt, now)
            <==> e.address in order && expiresAt[e.address] > now
                 && e.timeoutSeconds == Remaining(expiresAt[e.address], now)
  {
    if order != [] {
      var front, last := order[..|order| - 1], order[|order| - 1];
      LiveEntriesFromOrder(front, expiresAt, now, e);
      assert e.address in order <==> e.address in front || e.address == last;
    }
  }

  /**
   What a rebuild is handed, after any history: exactly the addresses with an unexpired
   registration, each with a timeout of at least one second that overshoots the latest registered
   deadline by less than one second, however many rebuilds have carried it over.
   */
  lemma RebuildTimeoutsDoNotDrift(ops: seq<Op>, start: int, a: string)
    ensures var m := Run(ops, start);
            && (forall e :: e in LiveOf(m.held, m.now) && e.address == a ==>
                  exists expiry :: && IsLatestDeadline(ops, start, a, expiry)
                                   && e.timeoutSeconds >= 1
                                   && expiry <= m.now + 1000 * e.timeoutSeconds < expiry + 1000)
            && ((exists e :: e in LiveOf(m.held, m.now) && e.address == a)
                <==> exists k, j, x :: Registers(ops, start, k, j, a, x) && x > m.now)
  {
    var m := Run(ops, start);
    DeadlineIsLatest(ops, start, a);
    forall e | e in LiveOf(m.held, m.now) && e.address == a
      ensures exists expiry :: && IsLatestDeadline(ops, start, a, expiry)
                               && e.timeoutSeconds >= 1
                               && expiry <= m.now + 1000 * e.timeoutSeconds < expiry + 1000
      ensures exists k, j, x :: Registers(ops, start, k, j, a, x) && x > m.now
    {
      LiveEntriesFromOrder(m.held.order, m.held.expiresAt, m.now, e);
      var expiry := m.held.expiresAt[a];
      assert IsLatestDeadline(ops, start, a, expiry);
      var k, j :| Registers(ops, start, k, j, a, expiry);
    }
    if k, j, x :| Registers(ops, start, k, j, a, x) && x > m.now {
      assert x <= m.held.expiresAt[a];
      var e := Nft.Element(a, Remaining(m.held.expiresAt[a], m.now));
      LiveEntriesFromOrder(m.held.order, m.held.expiresAt, m.now, e);
    }
  }
}
