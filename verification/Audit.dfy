/** The audit hash chain: src/artek_buddy/audit.py.  The hash is an arbitrary function on
    texts whose results have no colon; a payload is given as its canonical JSON text. */
module Audit {
  import opened Wrappers
  import opened Text

  /** The previous hash of the first record: 64 zeros. */
  function Genesis(): (g: string)
    ensures |g| == 64 && forall c :: c in g ==> c == '0'
  {
    seq(64, i => '0')
  }

  datatype Record = Record(seqNo: int, eventType: string, actor: string, resource: string, payload: string, prevHash: string, hash: string)

  datatype Reason = BadGenesis | NoPredecessor | BrokenLink | SequenceGap | HashMismatch

  datatype Verification = Verification(ok: bool, total: nat, headHash: string, failed: Option<(int, Reason)>)

  function IntText(n: int): string {
    if n < 0 then "-" + Decimal(-n) else Decimal(n)
  }

  /** The text that is hashed. */
  function Raw(r: Record): string {
    IntText(r.seqNo) + ":" + (r.eventType + ":" + (r.actor + ":" + (r.resource + ":" + (r.payload + ":" + r.prevHash))))
  }

  /** What is wrong with a record that follows `prev`, if anything. */
  function Fault(hash: string -> string, prev: Option<Record>, r: Record): Option<Reason> {
    if r.seqNo == 1 && r.prevHash != Genesis() then Some(BadGenesis)
    else if r.seqNo != 1 && prev.None? then Some(NoPredecessor)
    else if r.seqNo != 1 && r.prevHash != prev.value.hash then Some(BrokenLink)
    else if r.seqNo != 1 && r.seqNo != prev.value.seqNo + 1 then Some(SequenceGap)
    else if r.hash != hash(Raw(r)) then Some(HashMismatch)
    else None
  }

  function Predecessor(records: seq<Record>, i: nat): Option<Record>
    requires i < |records|
  {
    if i == 0 then None else Some(records[i - 1])
  }

  predicate Sound(hash: string -> string, records: seq<Record>) {
    forall i :: 0 <= i < |records| ==> Fault(hash, Predecessor(records, i), records[i]).None?
  }

  function HeadHash(records: seq<Record>): string {
    if records == [] then Genesis() else records[|records| - 1].hash
  }

  /** The verdict names the first record with a fault. */
  method VerifyAuditChain(hash: string -> string, records: seq<Record>) returns (v: Verification)
    ensures v.ok <==> Sound(hash, records)
    ensures v.ok <==> v.failed.None?
    ensures v.total == |records| && v.headHash == HeadHash(records)
    ensures !v.ok ==> exists i ::
              && 0 <= i < |records| && v.failed.value.0 == records[i].seqNo
              && Fault(hash, Predecessor(records, i), records[i]) == Some(v.failed.value.1)
              && forall j :: 0 <= j < i ==> Fault(hash, Predecessor(records, j), records[j]).None?
  {
    hide Genesis, Raw, Fault;
    if |records| == 0 { return Verification(true, 0, Genesis(), None); }
    var head := records[|records| - 1].hash;
    var prev: Option<Record> := None;
    for i := 0 to |records|
      invariant prev == if i == 0 then None else Some(records[i - 1])
      invariant forall j :: 0 <= j < i ==> Fault(hash, Predecessor(records, j), records[j]).None?
    {
      var r := records[i];
      assert prev == Predecessor(records, i);
      FaultCases(hash, prev, r);
      if r.seqNo == 1 {
        if r.prevHash != Genesis() {
          return Verification(false, |records|, head, Some((r.seqNo, BadGenesis)));
        }
      } else {
        if prev.None? {
          return Verification(false, |records|, head, Some((r.seqNo, NoPredecessor)));
        }
        if r.prevHash != prev.value.hash {
          return Verification(false, |records|, head, Some((r.seqNo, BrokenLink)));
        }
        if r.seqNo != prev.value.seqNo + 1 {
          return Verification(false, |records|, head, Some((r.seqNo, SequenceGap)));
        }
      }
      if r.hash != hash(Raw(r)) {
        return Verification(false, |records|, head, Some((r.seqNo, HashMismatch)));
      }
      prev := Some(r);
    }
    return Verification(true, |records|, head, None);
  }

  lemma FaultCases(hash: string -> string, prev: Option<Record>, r: Record)
    ensures r.seqNo == 1 && r.prevHash != Genesis() ==> Fault(hash, prev, r) == Some(BadGenesis)
    ensures r.seqNo != 1 && prev.None? ==> Fault(hash, prev, r) == Some(NoPredecessor)
    ensures r.seqNo != 1 && prev.Some? ==>
              && (r.prevHash != prev.value.hash ==> Fault(hash, prev, r) == Some(BrokenLink))
              && (r.prevHash == prev.value.hash && r.seqNo != prev.value.seqNo + 1 ==>
                    Fault(hash, prev, r) == Some(SequenceGap))
    ensures (r.seqNo == 1 && r.prevHash == Genesis())
            || (r.seqNo != 1 && prev.Some? && r.prevHash == prev.value.hash && r.seqNo == prev.value.seqNo + 1) ==>
              Fault(hash, prev, r) == if r.hash != hash(Raw(r)) then Some(HashMismatch) else None
  {
    hide Genesis, Raw;
  }

  lemma NoFault(hash: string -> string, prev: Option<Record>, r: Record)
    ensures Fault(hash, prev, r).None? <==>
            && r.hash == hash(Raw(r))
            && if r.seqNo == 1 then r.prevHash == Genesis()
               else prev.Some? && r.prevHash == prev.value.hash && r.seqNo == prev.value.seqNo + 1
  {
    hide Genesis, Raw;
  }

  // ---------------------------------------------------------------------------
  // What a head hash commits to

  /** Only the first record is numbered 1. */
  predicate NoRestart(records: seq<Record>) {
    forall i :: 0 < i < |records| ==> records[i].seqNo != 1
  }

  predicate ColonFree(r: Record) {
    ':' !in r.eventType && ':' !in r.actor && ':' !in r.resource
  }

  /** A verified chain is numbered 1 to n exactly if it does not restart. */
  lemma NumberedIff(hash: string -> string, records: seq<Record>)
    requires Sound(hash, records)
    ensures (forall i :: 0 <= i < |records| ==> records[i].seqNo == i + 1) <==> NoRestart(records)
  {
    hide Fault;
    if NoRestart(records) {
      forall i | 0 <= i < |records| ensures records[i].seqNo == i + 1 { Numbered(hash, records, i); }
    }
  }

  lemma {:induction false} Numbered(hash: string -> string, records: seq<Record>, i: nat)
    requires Sound(hash, records) && NoRestart(records) && i < |records|
    ensures records[i].seqNo == i + 1
  {
    hide Genesis, Raw, Fault;
    NoFault(hash, Predecessor(records, i), records[i]);
    if i > 0 { Numbered(hash, records, i - 1); }
  }

  /** Every previous hash in a verified chain is the genesis hash or a hash, so has no colon. */
  lemma PrevHasNoColon(hash: string -> string, records: seq<Record>, i: nat)
    requires Sound(hash, records) && i < |records| && Hex(hash)
    ensures ':' !in records[i].prevHash
    ensures records[i].hash == hash(Raw(records[i]))
    ensures i > 0 && NoRestart(records) ==> records[i].prevHash == records[i - 1].hash
  {
    hide Raw, Fault;
    NoFault(hash, Predecessor(records, i), records[i]);
    if i > 0 { NoFault(hash, Predecessor(records, i - 1), records[i - 1]); }
  }

  lemma IntTextHead(n: int)
    ensures IntText(n)[0] == '-' <==> n < 0
  {
    hide Decimal;
    if n >= 0 { assert Decimal(n)[0] in Decimal(n); }
  }

  lemma IntTextInjective(m: int, n: int)
    requires IntText(m) == IntText(n)
    ensures m == n
  {
    hide Decimal;
    IntTextHead(m);
    IntTextHead(n);
    if m < 0 {
      assert IntText(m)[1..] == Decimal(-m) && IntText(n)[1..] == Decimal(-n);
      DecimalInjective(-m, -n);
    } else {
      DecimalInjective(m, n);
    }
  }

  lemma IntTextPlain(n: int)
    ensures ':' !in IntText(n)
  {
    assert !IsDigit(':');
  }

  /** The hashed text determines every hashed field, though the payload may hold colons. */
  lemma RawDetermines(r: Record, s: Record)
    requires ColonFree(r) && ColonFree(s) && ':' !in r.prevHash && ':' !in s.prevHash && Raw(r) == Raw(s)
    ensures r.(hash := "") == s.(hash := "")
  {
    hide IntText;
    IntTextPlain(r.seqNo);
    IntTextPlain(s.seqNo);
    var r1, s1 := r.payload + ":" + r.prevHash, s.payload + ":" + s.prevHash;
    var r2, s2 := r.resource + ":" + r1, s.resource + ":" + s1;
    var r3, s3 := r.actor + ":" + r2, s.actor + ":" + s2;
    var r4, s4 := r.eventType + ":" + r3, s.eventType + ":" + s3;
    FirstColon(IntText(r.seqNo), r4, IntText(s.seqNo), s4);
    FirstColon(r.eventType, r3, s.eventType, s3);
    FirstColon(r.actor, r2, s.actor, s2);
    FirstColon(r.resource, r1, s.resource, s1);
    LastColon(r.payload, r.prevHash, s.payload, s.prevHash);
    IntTextInjective(r.seqNo, s.seqNo);
  }

  ghost predicate Chain(hash: string -> string, records: seq<Record>) {
    Sound(hash, records) && NoRestart(records) && forall r :: r in records ==> ColonFree(r)
  }

  lemma ChainPrefix(hash: string -> string, records: seq<Record>, n: nat)
    requires Chain(hash, records) && n <= |records|
    ensures Chain(hash, records[..n])
  {
    hide Fault;
    var p := records[..n];
    forall i | 0 <= i < n ensures Fault(hash, Predecessor(p, i), p[i]).None? {
      assert Predecessor(p, i) == Predecessor(records, i);
    }
  }

  /** Hashes have no colon; SHA-256 in hexadecimal has none. */
  ghost predicate Hex(hash: string -> string) {
    forall m :: ':' !in hash(m)
  }

  lemma LastIs(hash: string -> string, a: seq<Record>) returns (r: Record)
    requires Hex(hash) && Chain(hash, a) && a != []
    ensures r == a[|a| - 1] && r.seqNo == |a| && ColonFree(r) && ':' !in r.prevHash && r.hash == hash(Raw(r))
    ensures |a| > 1 ==> r.prevHash == HeadHash(a[..|a| - 1])
  {
    hide Raw, Fault, Genesis;
    r := a[|a| - 1];
    assert r in a;
    PrevHasNoColon(hash, a, |a| - 1);
    Numbered(hash, a, |a| - 1);
  }

  /** Two different texts hashed in these chains have the same hash. */
  ghost predicate Collision(hash: string -> string, a: seq<Record>, b: seq<Record>) {
    exists r, s :: r in a && s in b && Raw(r) != Raw(s) && hash(Raw(r)) == hash(Raw(s))
  }

  /** Two verified chains without restarts that have the same head hash agree record for
      record, unless they exhibit a collision of the hash: nothing in the history can be
      changed behind a head hash. */
  lemma {:induction false} HeadHashCommits(hash: string -> string, a: seq<Record>, b: seq<Record>)
    requires Hex(hash) && Chain(hash, a) && Chain(hash, b)
    requires a != [] && b != [] && HeadHash(a) == HeadHash(b)
    ensures a == b || Collision(hash, a, b)
    decreases |a|
  {
    hide Raw, Chain, ColonFree;
    var r := LastIs(hash, a);
    var s := LastIs(hash, b);
    assert r in a && s in b;
    if Raw(r) == Raw(s) {
      RawDetermines(r, s);
      var a', b' := a[..|a| - 1], b[..|b| - 1];
      assert a == a' + [r] && b == b' + [s];
      if |a| > 1 {
        ChainPrefix(hash, a, |a| - 1);
        ChainPrefix(hash, b, |b| - 1);
        HeadHashCommits(hash, a', b');
        if Collision(hash, a', b') { CollisionMore(hash, a', b', a, b); }
      }
    }
  }

  lemma CollisionMore(hash: string -> string, a': seq<Record>, b': seq<Record>, a: seq<Record>, b: seq<Record>)
    requires Collision(hash, a', b') && (forall r :: r in a' ==> r in a) && (forall s :: s in b' ==> s in b)
    ensures Collision(hash, a, b)
  {
    hide Raw;
    var r, s :| r in a' && s in b' && Raw(r) != Raw(s) && hash(Raw(r)) == hash(Raw(s));
    assert r in a && s in b;
  }

  // ---------------------------------------------------------------------------
  // Chains that are appended to

  /** What a caller asks to be recorded. */
  datatype Event = Event(eventType: string, actor: string, resource: string, payload: string)

  function EventOf(r: Record): Event {
    Event(r.eventType, r.actor, r.resource, r.payload)
  }

  /** The text that is hashed: six fields joined by colons. */
  function HashedText(seqNo: int, e: Event, prevHash: string): string {
    JoinWith([IntText(seqNo), e.eventType, e.actor, e.resource, e.payload, prevHash], ':')
  }

  /** The next record: one number on, the hash of the one before, and the hash of its text. */
  function Appended(hash: string -> string, records: seq<Record>, e: Event): Record {
    var n, prev := |records|, HeadHash(records);
    Record(n + 1, e.eventType, e.actor, e.resource, e.payload, prev, hash(HashedText(n + 1, e, prev)))
  }

  function Log(hash: string -> string, events: seq<Event>): seq<Record> {
    if events == [] then []
    else
      var n := |events| - 1;
      Log(hash, events[..n]) + [Appended(hash, Log(hash, events[..n]), events[n])]
  }

  function EventsOf(records: seq<Record>): seq<Event> {
    seq(|records|, i requires 0 <= i < |records| => EventOf(records[i]))
  }

  lemma RawIsHashed(r: Record)
    ensures Raw(r) == HashedText(r.seqNo, EventOf(r), r.prevHash)
  {
    hide IntText;
    var parts := [IntText(r.seqNo), r.eventType, r.actor, r.resource, r.payload, r.prevHash];
    assert parts[1..][1..][1..][1..][1..] == [r.prevHash];
    assert parts[1..][0] == r.eventType && parts[1..][1..][0] == r.actor && parts[1..][1..][1..][0] == r.resource
      && parts[1..][1..][1..][1..][0] == r.payload;
    JoinStep(parts);
    JoinStep(parts[1..]);
    JoinStep(parts[1..][1..]);
    JoinStep(parts[1..][1..][1..]);
    JoinStep(parts[1..][1..][1..][1..]);
  }

  lemma JoinStep(parts: seq<string>)
    requires |parts| > 1
    ensures JoinWith(parts, ':') == parts[0] + ":" + JoinWith(parts[1..], ':')
  {}

  lemma {:induction false} LogLength(hash: string -> string, events: seq<Event>)
    ensures |Log(hash, events)| == |events|
  {
    if events != [] { LogLength(hash, events[..|events| - 1]); }
  }

  /** The verified chains without restarts are exactly the logs of some events. */
  lemma {:induction false} SoundIffLog(hash: string -> string, records: seq<Record>)
    ensures Sound(hash, records) && NoRestart(records) <==> records == Log(hash, EventsOf(records))
    decreases |records|
  {
    hide Fault, HeadHash, Appended, EventOf;
    if records == [] {
      assert EventsOf(records) == [];
    } else {
      var n := |records| - 1;
      var init, last := records[..n], records[n];
      assert EventsOf(records)[..n] == EventsOf(init) && EventsOf(records)[n] == EventOf(last);
      SoundIffLog(hash, init);
      LogLength(hash, EventsOf(init));
      LastSound(hash, init, last);
      assert records == init + [last];
      if records == Log(hash, EventsOf(records)) {
        assert Log(hash, EventsOf(records))[..n] == Log(hash, EventsOf(init));
        assert Log(hash, EventsOf(records))[n] == Appended(hash, Log(hash, EventsOf(init)), EventOf(last));
      }
    }
  }

  lemma LastSound(hash: string -> string, init: seq<Record>, last: Record)
    ensures Sound(hash, init + [last]) && NoRestart(init + [last]) <==>
            Sound(hash, init) && NoRestart(init) && last == Appended(hash, init, EventOf(last))
  {
    hide Fault, Raw, Genesis, HashedText;
    var all, n := init + [last], |init|;
    assert forall i :: 0 <= i < n ==> all[i] == init[i] && Predecessor(all, i) == Predecessor(init, i);
    assert all[n] == last;
    NoFault(hash, Predecessor(all, n), last);
    RawIsHashed(last);
    if Sound(hash, init) && NoRestart(init) && n > 0 { Numbered(hash, init, n - 1); }
    assert Sound(hash, all) <==> Sound(hash, init) && Fault(hash, Predecessor(all, n), last).None?;
    assert NoRestart(all) <==> NoRestart(init) && (n > 0 ==> last.seqNo != 1);
  }

  // ---------------------------------------------------------------------------
  // Chains that restart

  /** The position of the last record numbered 1. */
  function LastStart(records: seq<Record>): (i: nat)
    requires records != [] && records[0].seqNo == 1
    ensures i < |records| && records[i].seqNo == 1 && NoRestart(records[i..])
  {
    if records[|records| - 1].seqNo == 1 then |records| - 1
    else
      var i := LastStart(records[..|records| - 1]);
      assert forall k :: 0 < k < |records| - 1 - i ==> records[i..][k] == records[..|records| - 1][i..][k];
      i
  }

  lemma StartsAtOne(hash: string -> string, records: seq<Record>)
    requires Sound(hash, records) && records != []
    ensures records[0].seqNo == 1
  {
    hide Genesis, Raw, Fault;
    NoFault(hash, Predecessor(records, 0), records[0]);
  }

  /** A record numbered 1 needs no predecessor, so what follows one is verified on its own. */
  lemma SoundFrom(hash: string -> string, records: seq<Record>, i: nat)
    requires Sound(hash, records) && i < |records| && records[i].seqNo == 1
    ensures Sound(hash, records[i..]) && HeadHash(records[i..]) == HeadHash(records)
  {
    hide Genesis, Raw, Fault;
    var tail := records[i..];
    forall k | 0 <= k < |tail| ensures Fault(hash, Predecessor(tail, k), tail[k]).None? {
      assert Fault(hash, Predecessor(records, i + k), records[i + k]).None?;
      NoFault(hash, Predecessor(records, i + k), tail[k]);
      NoFault(hash, Predecessor(tail, k), tail[k]);
      assert k > 0 ==> Predecessor(tail, k) == Predecessor(records, i + k);
    }
  }

  /** What a head hash commits to, restarts or not: two verified chains with the same head
      hash agree record for record from their last restart on, unless they exhibit a
      collision. */
  lemma CommitsFromLastStart(hash: string -> string, a: seq<Record>, b: seq<Record>)
    requires Hex(hash) && Sound(hash, a) && Sound(hash, b) && a != [] && b != []
    requires forall r :: r in a + b ==> ColonFree(r)
    requires HeadHash(a) == HeadHash(b)
    ensures a[0].seqNo == 1 && b[0].seqNo == 1
    ensures a[LastStart(a)..] == b[LastStart(b)..] || Collision(hash, a, b)
  {
    hide Fault, Collision, ColonFree, HeadHash;
    StartsAtOne(hash, a);
    StartsAtOne(hash, b);
    var a', b' := a[LastStart(a)..], b[LastStart(b)..];
    SoundFrom(hash, a, LastStart(a));
    SoundFrom(hash, b, LastStart(b));
    assert forall r :: r in a' ==> r in a + b;
    assert forall r :: r in b' ==> r in a + b;
    HeadHashCommits(hash, a', b');
    if Collision(hash, a', b') {
      CollisionMore(hash, a', b', a, b);
    }
  }

  /** And to nothing else: in front of any verified chain any other can be put. */
  lemma RestartAccepted(hash: string -> string, front: seq<Record>, records: seq<Record>)
    requires Sound(hash, front) && Sound(hash, records) && records != []
    ensures Sound(hash, front + records) && HeadHash(front + records) == HeadHash(records)
  {
    hide Genesis, Raw, Fault;
    StartsAtOne(hash, records);
    var all := front + records;
    forall k | 0 <= k < |all| ensures Fault(hash, Predecessor(all, k), all[k]).None? {
      if k < |front| {
        assert Predecessor(all, k) == Predecessor(front, k) && Fault(hash, Predecessor(front, k), front[k]).None?;
      } else {
        var i := k - |front|;
        assert Fault(hash, Predecessor(records, i), records[i]).None?;
        NoFault(hash, Predecessor(records, i), all[k]);
        NoFault(hash, Predecessor(all, k), all[k]);
        assert i > 0 ==> Predecessor(all, k) == Predecessor(records, i);
      }
    }
  }
}
