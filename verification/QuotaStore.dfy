// The in-process quota counters: entries that expire, and a purge when there are too many.
module QuotaStore {

  datatype Entry = Entry(expiry: real, count: nat)

  type Local = map<string, Entry>

  const MAX_ENTRIES: nat := 10_000

  /** One increment, with the monotonic clock at that moment. */
  datatype Op = Op(key: string, amount: nat, ttl: real, now: real)

  function Updated(local: Local, op: Op): Entry {
    var e := if op.key in local then local[op.key] else Entry(0.0, 0);
    if e.expiry < op.now then Entry(op.now + op.ttl, op.amount) else Entry(e.expiry, e.count + op.amount)
  }

  function Purged(local: Local, now: real): Local {
    map k | k in local && local[k].expiry >= now :: local[k]
  }

  function After(local: Local, op: Op, purging: bool): Local {
    var more := local[op.key := Updated(local, op)];
    if purging && |more| > MAX_ENTRIES then Purged(more, op.now) else more
  }

  function Store(ops: seq<Op>, purging: bool): Local {
    if ops == [] then map[] else After(Store(ops[..|ops| - 1], purging), ops[|ops| - 1], purging)
  }

  /** What the last increment returned. */
  function Total(ops: seq<Op>, purging: bool): nat
    requires ops != []
  {
    Updated(Store(ops[..|ops| - 1], purging), ops[|ops| - 1]).count
  }

  ghost predicate Ordered(ops: seq<Op>) {
    && (forall i :: 0 <= i < |ops| ==> ops[i].now > 0.0 && ops[i].ttl >= 0.0)
    && forall i, j :: 0 <= i <= j < |ops| ==> ops[i].now <= ops[j].now
  }

  // ------------------------------------------------------------------- purging

  /** `a` lacks only entries that have expired. */
  ghost predicate Agree(a: Local, b: Local, now: real) {
    && (forall k :: k in a ==> k in b && a[k] == b[k])
    && (forall k :: k in b ==> b[k].expiry > 0.0 && (k !in a ==> b[k].expiry < now))
  }

  lemma StepAgrees(a: Local, b: Local, op: Op, last: real)
    requires Agree(a, b, last) && last <= op.now && op.now > 0.0 && op.ttl >= 0.0
    ensures Updated(a, op).count == Updated(b, op).count
    ensures Agree(After(a, op, true), After(b, op, false), op.now)
  {
    assert Updated(a, op) == Updated(b, op);
  }

  lemma {:induction false} StoresAgree(ops: seq<Op>)
    requires Ordered(ops)
    ensures Agree(Store(ops, true), Store(ops, false), if ops == [] then 0.0 else ops[|ops| - 1].now)
  {
    hide Agree, After;
    if ops == [] {
      EmptyAgree();
    } else {
      var front := ops[..|ops| - 1];
      forall i | 0 <= i < |front| ensures front[i] == ops[i] {}
      StoresAgree(front);
      StepAgrees(Store(front, true), Store(front, false), ops[|ops| - 1], if front == [] then 0.0 else front[|front| - 1].now);
    }
  }

  lemma EmptyAgree()
    ensures Agree(map[], map[], 0.0)
  {}

  /** Beyond ten thousand entries nothing expired is kept. */
  lemma PurgeReads(local: Local, op: Op)
    ensures |After(local, op, true)| > 10_000 ==> forall k :: k in After(local, op, true) ==> After(local, op, true)[k].expiry >= op.now
    ensures |local[op.key := Updated(local, op)]| <= 10_000 ==> After(local, op, true) == local[op.key := Updated(local, op)]
  {
    hide Updated;
  }

  /** No caller can tell that entries are purged: every increment returns what a store that never purges
      returns. */
  lemma PurgeInvisible(ops: seq<Op>)
    requires ops != [] && Ordered(ops)
    ensures Total(ops, true) == Total(ops, false)
  {
    hide Agree, Updated;
    var front := ops[..|ops| - 1];
    forall i | 0 <= i < |front| ensures front[i] == ops[i] {}
    StoresAgree(front);
    StepAgrees(Store(front, true), Store(front, false), ops[|ops| - 1], if front == [] then 0.0 else front[|front| - 1].now);
  }

  // ------------------------------------------------------------------- counting

  function Sum(ops: seq<Op>, key: string): nat {
    if ops == [] then 0
    else Sum(ops[..|ops| - 1], key) + if ops[|ops| - 1].key == key then ops[|ops| - 1].amount else 0
  }

  /** When the entry made by the first increment of `key` expires; zero before that. */
  function FirstExpiry(ops: seq<Op>, key: string): real {
    if ops == [] then 0.0
    else
      var e, last := FirstExpiry(ops[..|ops| - 1], key), ops[|ops| - 1];
      if e == 0.0 && last.key == key then last.now + last.ttl else e
  }

  /** No increment of `key` comes after its first entry has expired. */
  ghost predicate InTime(ops: seq<Op>, key: string) {
    forall i :: 0 <= i < |ops| && ops[i].key == key ==> ops[i].now <= FirstExpiry(ops[..i + 1], key)
  }

  lemma {:induction false} EntryCountsEverything(ops: seq<Op>, key: string)
    requires Ordered(ops) && InTime(ops, key)
    ensures var s := Store(ops, false);
      if FirstExpiry(ops, key) == 0.0 then key !in s && Sum(ops, key) == 0
      else key in s && s[key] == Entry(FirstExpiry(ops, key), Sum(ops, key))
  {
    if ops != [] {
      var front, last := ops[..|ops| - 1], ops[|ops| - 1];
      forall i | 0 <= i < |front| ensures front[i] == ops[i] && front[..i + 1] == ops[..i + 1] {}
      assert ops[..|ops|] == ops;
      EntryCountsEverything(front, key);
    }
  }

  /** While a key's first entry has not expired, increments return the sum of everything added to it. */
  lemma {:induction false} TotalIsSum(ops: seq<Op>)
    requires ops != [] && Ordered(ops) && InTime(ops, ops[|ops| - 1].key)
    ensures Total(ops, true) == Sum(ops, ops[|ops| - 1].key)
  {
    hide Updated;
    PurgeInvisible(ops);
    EntryCountsEverything(ops, ops[|ops| - 1].key);
    var last := ops[|ops| - 1];
    assert last.now > 0.0 && last.ttl >= 0.0;
    FirstExpiryPositive(ops, last.key);
    assert Store(ops, false)[last.key] == Updated(Store(ops[..|ops| - 1], false), last);
  }

  lemma {:induction false} FirstExpiryPositive(ops: seq<Op>, key: string)
    requires Ordered(ops)
    ensures FirstExpiry(ops, key) >= 0.0
    ensures ops != [] && ops[|ops| - 1].key == key ==> FirstExpiry(ops, key) > 0.0
  {
    if ops != [] {
      var front := ops[..|ops| - 1];
      forall i | 0 <= i < |front| ensures front[i] == ops[i] {}
      assert ops[|ops| - 1].now > 0.0 && ops[|ops| - 1].ttl >= 0.0;
      FirstExpiryPositive(front, key);
    }
  }

  class LocalStore {
    var local: Local

    constructor ()
      ensures local == map[]
    {
      local := map[];
    }

    method IncrLocal(key: string, amount: nat, ttl: real, now: real) returns (count: nat)
      modifies this
      ensures local == After(old(local), Op(key, amount, ttl, now), true)
      ensures count == Updated(old(local), Op(key, amount, ttl, now)).count
    {
      var e := if key in local then local[key] else Entry(0.0, 0);
      if e.expiry < now {
        e := Entry(now + ttl, 0);
      }
      count := e.count + amount;
      local := local[key := Entry(e.expiry, count)];
      if |local| > MAX_ENTRIES {
        local := Purged(local, now);
      }
    }
  }
}
