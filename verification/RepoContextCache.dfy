/**
 The LRU cache with expiry of pr_agent/algo/repo_context.py, against a plain map that never evicts and
 never deletes.
 */
module RepoContextCache {
  import opened Wrappers

  type Key = string
  type Value = string

  datatype Entry = Entry(key: Key, value: Value, expires: real)

  datatype Op = Store(key: Key, value: Value, now: real) | Lookup(key: Key, now: real)

  /** Least recently touched first, as in the ordered dictionary. */
  function Find(entries: seq<Entry>, key: Key): Option<Entry> {
    if entries == [] then None else if entries[0].key == key then Some(entries[0]) else Find(entries[1..], key)
  }

  function Without(entries: seq<Entry>, key: Key): seq<Entry> {
    if entries == [] then [] else (if entries[0].key == key then [] else [entries[0]]) + Without(entries[1..], key)
  }

  /** Popping the oldest while there are too many. */
  function Shrunk(entries: seq<Entry>, maxSize: nat): seq<Entry> {
    if |entries| <= maxSize then entries else entries[|entries| - maxSize..]
  }

  predicate Hits(entries: seq<Entry>, key: Key, now: real) {
    Find(entries, key).Some? && Find(entries, key).value.expires > now
  }

  function Step(entries: seq<Entry>, maxSize: nat, ttl: nat, op: Op): seq<Entry> {
    match op
    case Store(key, value, now) => Shrunk(Without(entries, key) + [Entry(key, value, now + ttl as real)], maxSize)
    case Lookup(key, now) =>
      if Find(entries, key).None? then entries
      else if !Hits(entries, key, now) then Without(entries, key)
      else Without(entries, key) + [Find(entries, key).value]
  }

  function Answer(entries: seq<Entry>, op: Op): Option<Value>
    requires op.Lookup?
  {
    if Hits(entries, op.key, op.now) then Some(Find(entries, op.key).value.value) else None
  }

  class Cache {
    const maxSize: nat
    const ttl: nat
    var entries: seq<Entry>

    constructor (maxSize: int, ttl: int)
      ensures entries == [] && this.maxSize >= 1 && this.maxSize == (if maxSize > 1 then maxSize else 1)
      ensures this.ttl == if ttl > 0 then ttl else 0
    {
      this.maxSize := if maxSize > 1 then maxSize else 1;
      this.ttl := if ttl > 0 then ttl else 0;
      entries := [];
    }

    method Get(key: Key, now: real) returns (r: Option<Value>)
      modifies this
      ensures entries == Step(old(entries), maxSize, ttl, Lookup(key, now))
      ensures r == Answer(old(entries), Lookup(key, now))
    {
      var found := Find(entries, key);
      if found.None? {
        return None;
      }
      entries := Without(entries, key);
      if found.value.expires <= now {
        return None;
      }
      entries := entries + [found.value];
      r := Some(found.value.value);
    }

    method Set(key: Key, value: Value, now: real)
      modifies this
      ensures entries == Step(old(entries), maxSize, ttl, Store(key, value, now))
    {
      entries := Without(entries, key) + [Entry(key, value, now + ttl as real)];
      entries := PopOldest(entries, maxSize);
    }
  }

  method PopOldest(full: seq<Entry>, maxSize: nat) returns (entries: seq<Entry>)
    ensures entries == Shrunk(full, maxSize)
  {
    entries := full;
    while |entries| > maxSize
      invariant |entries| <= |full| && entries == full[|full| - |entries|..]
      invariant |entries| >= maxSize || entries == full
      decreases |entries|
    {
      entries := entries[1..];
    }
  }

  // ----- structure -----

  ghost predicate Distinct(entries: seq<Entry>) {
    forall i, j :: 0 <= i < j < |entries| ==> entries[i].key != entries[j].key
  }

  lemma {:induction false} WithoutElements(entries: seq<Entry>, key: Key, e: Entry)
    ensures e in Without(entries, key) <==> e in entries && e.key != key
  {
    if entries != [] {
      WithoutElements(entries[1..], key, e);
      assert entries == [entries[0]] + entries[1..];
    }
  }

  lemma {:induction false} WithoutDistinct(entries: seq<Entry>, key: Key)
    requires Distinct(entries)
    ensures Distinct(Without(entries, key)) && |Without(entries, key)| <= |entries|
  {
    if entries != [] {
      WithoutDistinct(entries[1..], key);
      var rest := Without(entries[1..], key);
      forall j | 0 <= j < |rest| ensures rest[j].key != entries[0].key {
        WithoutElements(entries[1..], key, rest[j]);
        var k :| 0 <= k < |entries| - 1 && entries[1..][k] == rest[j];
        assert entries[k + 1] == rest[j];
      }
    }
  }

  lemma WithoutKeeps(entries: seq<Entry>, key: Key)
    requires Distinct(entries)
    ensures Distinct(Without(entries, key)) && |Without(entries, key)| <= |entries|
    ensures forall e :: e in Without(entries, key) <==> e in entries && e.key != key
  {
    WithoutDistinct(entries, key);
    forall e ensures e in Without(entries, key) <==> e in entries && e.key != key {
      WithoutElements(entries, key, e);
    }
  }

  lemma {:induction false} FindFinds(entries: seq<Entry>, key: Key)
    ensures Find(entries, key).Some? ==> Find(entries, key).value in entries && Find(entries, key).value.key == key
    ensures forall e :: e in entries && e.key == key ==> Find(entries, key).Some?
  {
    if entries != [] {
      FindFinds(entries[1..], key);
      assert entries == [entries[0]] + entries[1..];
    }
  }

  lemma FindUnique(entries: seq<Entry>, e: Entry)
    requires Distinct(entries) && e in entries
    ensures Find(entries, e.key) == Some(e)
  {
    FindFinds(entries, e.key);
    var f := Find(entries, e.key).value;
    var i :| 0 <= i < |entries| && entries[i] == e;
    var j :| 0 <= j < |entries| && entries[j] == f;
  }

  lemma ShrunkKeeps(entries: seq<Entry>, maxSize: nat)
    requires Distinct(entries)
    ensures Distinct(Shrunk(entries, maxSize)) && |Shrunk(entries, maxSize)| <= maxSize
    ensures forall e :: e in Shrunk(entries, maxSize) ==> e in entries
  {
    var d := |entries| - maxSize;
    if d > 0 {
      assert forall k :: 0 <= k < |Shrunk(entries, maxSize)| ==> Shrunk(entries, maxSize)[k] == entries[d + k];
    }
  }

  // ----- the plain map -----

  function Plain(ops: seq<Op>, ttl: nat): map<Key, Entry> {
    if ops == [] then map[]
    else
      var before, op := Plain(ops[..|ops| - 1], ttl), ops[|ops| - 1];
      if op.Store? then before[op.key := Entry(op.key, op.value, op.now + ttl as real)] else before
  }

  function After(entries: seq<Entry>, maxSize: nat, ttl: nat, ops: seq<Op>): seq<Entry> {
    if ops == [] then entries else Step(After(entries, maxSize, ttl, ops[..|ops| - 1]), maxSize, ttl, ops[|ops| - 1])
  }

  ghost predicate Agrees(entries: seq<Entry>, plain: map<Key, Entry>) {
    Distinct(entries) && forall e :: e in entries ==> e.key in plain && plain[e.key] == e
  }

  lemma StepAgrees(entries: seq<Entry>, maxSize: nat, ttl: nat, op: Op, plain: map<Key, Entry>)
    requires Agrees(entries, plain) && |entries| <= maxSize
    ensures var plain' := if op.Store? then plain[op.key := Entry(op.key, op.value, op.now + ttl as real)] else plain;
            Agrees(Step(entries, maxSize, ttl, op), plain') && |Step(entries, maxSize, ttl, op)| <= maxSize
  {
    hide Without, Find, Shrunk;
    WithoutKeeps(entries, op.key);
    FindFinds(entries, op.key);
    match op
    case Store(key, value, now) =>
      ShrunkKeeps(Without(entries, key) + [Entry(key, value, now + ttl as real)], maxSize);
    case Lookup(key, now) =>
      if Hits(entries, key, now) {
        OneFewer(entries, Find(entries, key).value);
      }
  }

  lemma {:induction false} OneFewer(entries: seq<Entry>, e: Entry)
    requires Distinct(entries) && e in entries
    ensures |Without(entries, e.key)| < |entries|
  {
    WithoutKeeps(entries[1..], e.key);
    if entries[0] != e {
      assert e in entries[1..];
      OneFewer(entries[1..], e);
    }
  }

  /** The cache only ever holds what a plain map would, and never more than its size. */
  lemma {:induction false} EveryRunAgrees(maxSize: nat, ttl: nat, ops: seq<Op>)
    requires maxSize >= 1
    ensures Agrees(After([], maxSize, ttl, ops), Plain(ops, ttl)) && |After([], maxSize, ttl, ops)| <= maxSize
    decreases |ops|
  {
    if ops != [] {
      hide Step, Agrees;
      var op := ops[|ops| - 1];
      EveryRunAgrees(maxSize, ttl, ops[..|ops| - 1]);
      StepAgrees(After([], maxSize, ttl, ops[..|ops| - 1]), maxSize, ttl, op, Plain(ops[..|ops| - 1], ttl));
    }
  }

  /** A hit returns the value last stored for the key, and never one that has expired. */
  lemma HitsAreRight(maxSize: nat, ttl: nat, ops: seq<Op>, key: Key, now: real)
    requires maxSize >= 1 && Answer(After([], maxSize, ttl, ops), Lookup(key, now)).Some?
    ensures key in Plain(ops, ttl) && Plain(ops, ttl)[key].expires > now
    ensures Answer(After([], maxSize, ttl, ops), Lookup(key, now)) == Some(Plain(ops, ttl)[key].value)
  {
    EveryRunAgrees(maxSize, ttl, ops);
    FindFinds(After([], maxSize, ttl, ops), key);
  }

  // ----- what stays -----

  /** The entry is held, and only keys of the set were touched more recently. */
  ghost predicate HeldBehind(entries: seq<Entry>, e: Entry, others: set<Key>) {
    && Distinct(entries)
    && exists i :: 0 <= i < |entries| && entries[i] == e && forall j :: i < j < |entries| ==> entries[j].key in others
  }

  /** The keys a run stores or hits. */
  function Touched(entries: seq<Entry>, maxSize: nat, ttl: nat, ops: seq<Op>): set<Key>
    decreases |ops|
  {
    if ops == [] then {}
    else
      var rest := Touched(Step(entries, maxSize, ttl, ops[0]), maxSize, ttl, ops[1..]);
      if ops[0].Store? || Hits(entries, ops[0].key, ops[0].now) then rest + {ops[0].key} else rest
  }

  function Replay(entries: seq<Entry>, maxSize: nat, ttl: nat, ops: seq<Op>): seq<Entry>
    decreases |ops|
  {
    if ops == [] then entries else Replay(Step(entries, maxSize, ttl, ops[0]), maxSize, ttl, ops[1..])
  }

  lemma {:induction false} WithoutHeld(entries: seq<Entry>, e: Entry, others: set<Key>, key: Key)
    requires HeldBehind(entries, e, others) && key != e.key
    ensures HeldBehind(Without(entries, key), e, others)
  {
    var i :| 0 <= i < |entries| && entries[i] == e && forall j :: i < j < |entries| ==> entries[j].key in others;
    if i > 0 {
      assert entries[1..][i - 1] == e && forall j :: i - 1 < j < |entries| - 1 ==> entries[1..][j] == entries[j + 1];
      WithoutHeld(entries[1..], e, others, key);
      WithoutDistinct(entries, key);
      if entries[0].key != key {
        PrependHeld(entries[0], Without(entries[1..], key), e, others);
      } else {
        assert [] + Without(entries[1..], key) == Without(entries[1..], key);
      }
    } else {
      FirstHeld(entries, others, key);
    }
  }

  lemma PrependHeld(x: Entry, entries: seq<Entry>, e: Entry, others: set<Key>)
    requires HeldBehind(entries, e, others) && Distinct([x] + entries)
    ensures HeldBehind([x] + entries, e, others)
  {
    var k :| 0 <= k < |entries| && entries[k] == e && forall j :: k < j < |entries| ==> entries[j].key in others;
    assert ([x] + entries)[k + 1] == e;
    assert forall j :: k + 1 < j < |entries| + 1 ==> ([x] + entries)[j] == entries[j - 1];
  }

  lemma FirstHeld(entries: seq<Entry>, others: set<Key>, key: Key)
    requires Distinct(entries) && entries != [] && entries[0].key != key
    requires forall j :: 0 < j < |entries| ==> entries[j].key in others
    ensures HeldBehind(Without(entries, key), entries[0], others)
  {
    WithoutDistinct(entries, key);
    var rest := Without(entries[1..], key);
    assert Without(entries, key)[0] == entries[0];
    forall j | 0 <= j < |rest| ensures rest[j].key in others {
      WithoutElements(entries[1..], key, rest[j]);
      var m :| 0 <= m < |entries| - 1 && entries[1..][m] == rest[j];
      assert entries[m + 1] == rest[j];
    }
    assert forall j :: 0 < j < |rest| + 1 ==> Without(entries, key)[j] == rest[j - 1];
  }

  lemma AppendHeld(entries: seq<Entry>, e: Entry, others: set<Key>, x: Entry)
    requires HeldBehind(entries, e, others) && forall k :: 0 <= k < |entries| ==> entries[k].key != x.key
    ensures HeldBehind(entries + [x], e, others + {x.key})
  {
    var i :| 0 <= i < |entries| && entries[i] == e && forall j :: i < j < |entries| ==> entries[j].key in others;
    assert (entries + [x])[i] == e;
  }

  /** An entry behind fewer other keys than the cache has room for is not popped. */
  lemma ShrunkHeld(entries: seq<Entry>, e: Entry, others: set<Key>, maxSize: nat)
    requires HeldBehind(entries, e, others) && |others| < maxSize
    ensures HeldBehind(Shrunk(entries, maxSize), e, others)
  {
    var i :| 0 <= i < |entries| && entries[i] == e && forall j :: i < j < |entries| ==> entries[j].key in others;
    ShrunkKeeps(entries, maxSize);
    DistinctKeysFit(entries[i + 1..], others);
    var d := |entries| - maxSize;
    if d > 0 {
      assert Shrunk(entries, maxSize)[i - d] == e;
    }
  }

  lemma {:induction false} DistinctKeysFit(entries: seq<Entry>, keys: set<Key>)
    requires Distinct(entries) && forall k :: 0 <= k < |entries| ==> entries[k].key in keys
    ensures |entries| <= |keys|
    decreases |entries|
  {
    if entries != [] {
      DistinctKeysFit(entries[1..], keys - {entries[0].key});
    }
  }

  lemma StepHolds(entries: seq<Entry>, e: Entry, others: set<Key>, maxSize: nat, ttl: nat, op: Op)
    requires HeldBehind(entries, e, others) && op.key != e.key
    requires |others + {op.key}| < maxSize
    ensures HeldBehind(Step(entries, maxSize, ttl, op), e,
              if op.Store? || Hits(entries, op.key, op.now) then others + {op.key} else others)
  {
    hide HeldBehind, Without, Shrunk, Find;
    var rest := Without(entries, op.key);
    WithoutHeld(entries, e, others, op.key);
    HeldIsDistinct(entries, e, others);
    WithoutKeeps(entries, op.key);
    FindFinds(entries, op.key);
    match op
    case Store(key, value, now) =>
      var x := Entry(key, value, now + ttl as real);
      AppendHeld(rest, e, others, x);
      ShrunkHeld(rest + [x], e, others + {key}, maxSize);
    case Lookup(key, now) =>
      if Hits(entries, key, now) {
        AppendHeld(rest, e, others, Find(entries, key).value);
      }
  }

  lemma HeldIsDistinct(entries: seq<Entry>, e: Entry, others: set<Key>)
    requires HeldBehind(entries, e, others)
    ensures Distinct(entries) && e in entries
  {}

  lemma SubsetSize(a: set<Key>, b: set<Key>)
    requires a <= b
    ensures |a| <= |b|
  {
    assert b == a + (b - a);
  }

  /**
   An entry that was just touched is still there, and still hit while it has not expired, as long as
   fewer than `maxSize` distinct other keys have been stored or hit since.
   */
  lemma {:induction false} RecentEntriesStay(
      entries: seq<Entry>, e: Entry, others: set<Key>, maxSize: nat, ttl: nat, ops: seq<Op>)
    requires HeldBehind(entries, e, others) && (forall k :: 0 <= k < |ops| ==> ops[k].key != e.key)
    requires |others + Touched(entries, maxSize, ttl, ops)| < maxSize
    ensures var end := Replay(entries, maxSize, ttl, ops);
            && HeldBehind(end, e, others + Touched(entries, maxSize, ttl, ops))
            && (forall now :: now < e.expires ==> Answer(end, Lookup(e.key, now)) == Some(e.value))
    decreases |ops|
  {
    hide HeldBehind, Step;
    if ops == [] {
      HeldIsDistinct(entries, e, others);
      FindUnique(entries, e);
      assert others + {} == others;
    } else {
      var op := ops[0];
      var touched := op.Store? || Hits(entries, op.key, op.now);
      var next := if touched then others + {op.key} else others;
      var rest := Touched(Step(entries, maxSize, ttl, op), maxSize, ttl, ops[1..]);
      assert next + rest == others + Touched(entries, maxSize, ttl, ops);
      SubsetSize(next, next + rest);
      if touched {
        StepHolds(entries, e, others, maxSize, ttl, op);
      } else {
        MissHolds(entries, e, others, maxSize, ttl, op);
      }
      RecentEntriesStay(Step(entries, maxSize, ttl, op), e, next, maxSize, ttl, ops[1..]);
    }
  }

  lemma MissHolds(entries: seq<Entry>, e: Entry, others: set<Key>, maxSize: nat, ttl: nat, op: Op)
    requires HeldBehind(entries, e, others) && op.key != e.key
    requires op.Lookup? && !Hits(entries, op.key, op.now)
    ensures HeldBehind(Step(entries, maxSize, ttl, op), e, others)
  {
    WithoutHeld(entries, e, others, op.key);
  }

  lemma LastHeld(entries: seq<Entry>, e: Entry)
    requires Distinct(entries) && forall k :: 0 <= k < |entries| ==> entries[k].key != e.key
    ensures HeldBehind(entries + [e], e, {})
  {
    assert (entries + [e])[|entries|] == e;
  }

  /** Touching an entry puts it in front of every other key. */
  lemma TouchedIsInFront(entries: seq<Entry>, maxSize: nat, ttl: nat, op: Op)
    requires Distinct(entries) && maxSize >= 1 && (op.Store? || Hits(entries, op.key, op.now))
    ensures var e := if op.Store? then Entry(op.key, op.value, op.now + ttl as real) else Find(entries, op.key).value;
            HeldBehind(Step(entries, maxSize, ttl, op), e, {})
  {
    hide Without, Find, Shrunk, HeldBehind;
    WithoutKeeps(entries, op.key);
    FindFinds(entries, op.key);
    var e := if op.Store? then Entry(op.key, op.value, op.now + ttl as real) else Find(entries, op.key).value;
    LastHeld(Without(entries, op.key), e);
    if op.Store? {
      ShrunkHeld(Without(entries, op.key) + [e], e, {}, maxSize);
    }
  }
}
