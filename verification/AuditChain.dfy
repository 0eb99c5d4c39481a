/** The hash-linked audit ledger of `drex_verify.py`: the chain checker, and what an accepted chain proves.

    SHA-256 cannot be injective, so tamper evidence is stated without assuming that it is: two accepted
    chains that end in the same hash agree on everything that is hashed, or their own preimages contain
    an explicit collision. */
module AuditChain {
  import opened Basics

  /** `Float` is given by its shortest decimal form, which tells any two floats apart. */
  datatype Json =
    | Null | Bool(b: bool) | Int(n: int) | Float(repr: string) | Str(s: string)
    | Arr(items: seq<Json>) | Obj(fields: map<string, Json>)

  function Get(fields: map<string, Json>, key: string, default: Json): Json {
    if key in fields then fields[key] else default
  }

  const GENESIS := "00000000000000000000000000000000" + "00000000000000000000000000000000"

  /** The object whose canonical JSON is hashed. */
  datatype Envelope = Envelope(sequenceNumber: Json, eventId: Json, caseId: Json, timestamp: Json, actor: Json,
                               eventType: Json, operationId: Json, payload: Json)

  /** Canonical JSON, SHA-256 as a hex digest, UTF-8, and the integer that a float of a given form is equal to. */
  datatype Primitives = Primitives(canon: Envelope -> Bytes, sha256: Bytes -> string, utf8: string -> Bytes,
                                   integral: string -> Option<int>)

  /** Python's `value == n` for an integer `n`: booleans and integral floats compare as numbers. */
  predicate EqualsInt(p: Primitives, value: Json, n: int) {
    match value
    case Int(m) => m == n
    case Bool(b) => n == if b then 1 else 0
    case Float(repr) => p.integral(repr) == Some(n)
    case _ => false
  }

  /** 64 lower-case hexadecimal digits. */
  predicate IsDigest(s: string) {
    |s| == 64 && forall i :: 0 <= i < 64 ==> '0' <= s[i] <= '9' || 'a' <= s[i] <= 'f'
  }

  /** Hash strings are hexadecimal digests, and UTF-8 writes each of them in 64 bytes of its own. */
  ghost predicate Standard(p: Primitives) {
    && (forall b :: IsDigest(p.sha256(b)))
    && (forall s :: IsDigest(s) ==> |p.utf8(s)| == 64)
    && (forall s, t :: IsDigest(s) && IsDigest(t) && p.utf8(s) == p.utf8(t) ==> s == t)
  }

  // ---------- One event ----------

  /** The fields the hash covers, with the defaults the verifier substitutes for missing ones. */
  function EnvelopeOf(ev: map<string, Json>): Envelope {
    Envelope(Get(ev, "sequence_number", Null), Get(ev, "event_id", Str("")), Get(ev, "case_id", Str("")),
             Get(ev, "timestamp", Str("")), Get(ev, "actor", Str("")), Get(ev, "event_type", Str("")),
             Get(ev, "operation_id", Null), Get(ev, "canonical_payload", Obj(map[])))
  }

  function Preimage(p: Primitives, previous: string, ev: map<string, Json>): Bytes {
    p.utf8(previous) + p.canon(EnvelopeOf(ev))
  }

  function EnvelopeHash(p: Primitives, previous: string, ev: map<string, Json>): string {
    p.sha256(Preimage(p, previous, ev))
  }

  /** Does the verifier accept `entry` at position `index` behind the hash `expected`? */
  predicate EventOk(p: Primitives, entry: Json, index: nat, expected: string) {
    && entry.Obj?
    && EqualsInt(p, Get(entry.fields, "sequence_number", Null), index)
    && Get(entry.fields, "previous_hash", Str("")) == Str(expected)
    && Get(entry.fields, "current_hash", Str("")) == Str(EnvelopeHash(p, expected, entry.fields))
  }

  // ---------- The chain ----------

  /** The hash the next event has to name, behind the first `n` accepted events. */
  function LinkHash(p: Primitives, chain: seq<Json>, n: nat): string
    requires n <= |chain|
  {
    if n == 0 then GENESIS
    else if chain[n - 1].Obj? then EnvelopeHash(p, LinkHash(p, chain, n - 1), chain[n - 1].fields)
    else ""
  }

  predicate LinkedAt(p: Primitives, chain: seq<Json>, i: nat)
    requires i < |chain|
  {
    EventOk(p, chain[i], i, LinkHash(p, chain, i))
  }

  /** The first `n` events are accepted. */
  predicate AcceptedUpTo(p: Primitives, chain: seq<Json>, n: nat)
    requires n <= |chain|
  {
    forall i :: 0 <= i < n ==> LinkedAt(p, chain, i)
  }

  predicate Accepted(p: Primitives, chain: seq<Json>) { AcceptedUpTo(p, chain, |chain|) }

  datatype Parsed = Unreadable | Value(json: Json)

  /** The verifier's loop: stops at the first bad event, counting the good ones in front of it. */
  method VerifyAuditChain(p: Primitives, file: Parsed) returns (ok: bool, verified: nat, tampered: nat)
    ensures ok <==> file.Value? && file.json.Arr? && Accepted(p, file.json.items)
    ensures tampered == if ok then 0 else 1
    ensures file.Value? && file.json.Arr? ==>
      verified <= |file.json.items| && AcceptedUpTo(p, file.json.items, verified)
    ensures file.Value? && file.json.Arr? && !ok ==>
      verified < |file.json.items| && !LinkedAt(p, file.json.items, verified)
    ensures ok ==> verified == |file.json.items|
  {
    verified := 0;
    if file.Unreadable? || !file.json.Arr? {
      return false, 0, 1;
    }
    var data := file.json.items;
    var expectedPrev := GENESIS;
    for index := 0 to |data|
      invariant verified == index && AcceptedUpTo(p, data, index)
      invariant expectedPrev == LinkHash(p, data, index)
    {
      var entry := data[index];
      if !entry.Obj? {
        assert !LinkedAt(p, data, index);
        return false, verified, 1;
      }
      if !EqualsInt(p, Get(entry.fields, "sequence_number", Null), index) {
        assert !LinkedAt(p, data, index);
        return false, verified, 1;
      }
      if Get(entry.fields, "previous_hash", Str("")) != Str(expectedPrev) {
        assert !LinkedAt(p, data, index);
        return false, verified, 1;
      }
      var recomputed := EnvelopeHash(p, expectedPrev, entry.fields);
      if Get(entry.fields, "current_hash", Str("")) != Str(recomputed) {
        assert !LinkedAt(p, data, index);
        return false, verified, 1;
      }
      expectedPrev := recomputed;
      verified := verified + 1;
    }
    return true, verified, 0;
  }

  // ---------- Tamper evidence ----------

  /** Two different byte strings with one digest, among the preimages of two chains. */
  ghost predicate HaveCollision(p: Primitives, a: seq<Json>, b: seq<Json>) {
    exists i, j :: 0 <= i < |a| && 0 <= j < |b| && a[i].Obj? && b[j].Obj? && CollideAt(p, a, b, i, j)
  }

  ghost predicate CollideAt(p: Primitives, a: seq<Json>, b: seq<Json>, i: nat, j: nat)
    requires i < |a| && j < |b| && a[i].Obj? && b[j].Obj?
  {
    var x, y := Preimage(p, LinkHash(p, a, i), a[i].fields), Preimage(p, LinkHash(p, b, j), b[j].fields);
    x != y && p.sha256(x) == p.sha256(y)
  }

  /** Canonical JSON tells the envelopes of one chain from those of the other. */
  ghost predicate Distinguishes(p: Primitives, a: seq<Json>, b: seq<Json>) {
    forall i, j :: 0 <= i < |a| && 0 <= j < |b| && a[i].Obj? && b[j].Obj? ==> Apart(p, a[i].fields, b[j].fields)
  }

  predicate Apart(p: Primitives, x: map<string, Json>, y: map<string, Json>) {
    p.canon(EnvelopeOf(x)) == p.canon(EnvelopeOf(y)) ==> EnvelopeOf(x) == EnvelopeOf(y)
  }

  lemma GenesisIsDigest()
    ensures IsDigest(GENESIS)
  {}

  lemma LinkHashIsDigest(p: Primitives, chain: seq<Json>, n: nat)
    requires Standard(p) && n <= |chain| && AcceptedUpTo(p, chain, n)
    ensures IsDigest(LinkHash(p, chain, n))
  {
    hide IsDigest, GENESIS, Preimage;
    GenesisIsDigest();
    if n > 0 { assert LinkedAt(p, chain, n - 1); }
  }

  /** Equal preimages behind digests split uniquely, because every digest takes 64 bytes. */
  lemma PreimageSplits(p: Primitives, h: string, x: map<string, Json>, g: string, y: map<string, Json>)
    requires Standard(p) && IsDigest(h) && IsDigest(g) && Preimage(p, h, x) == Preimage(p, g, y)
    ensures h == g && p.canon(EnvelopeOf(x)) == p.canon(EnvelopeOf(y))
  {
    hide IsDigest;
    var s, t := Preimage(p, h, x), Preimage(p, g, y);
    assert s[..64] == p.utf8(h) && t[..64] == p.utf8(g);
    assert s[64..] == p.canon(EnvelopeOf(x)) && t[64..] == p.canon(EnvelopeOf(y));
  }

  /** One value cannot be the sequence number of two positions. */
  lemma SequenceFixesPosition(p: Primitives, value: Json, i: int, j: int)
    requires EqualsInt(p, value, i) && EqualsInt(p, value, j)
    ensures i == j
  {}

  /** The two chains carry the same hashes and hashed fields at position `k`. */
  predicate AgreeAt(a: seq<Json>, b: seq<Json>, k: nat)
    requires k < |a| && k < |b|
  {
    && a[k].Obj? && b[k].Obj? && EnvelopeOf(a[k].fields) == EnvelopeOf(b[k].fields)
    && Get(a[k].fields, "previous_hash", Str("")) == Get(b[k].fields, "previous_hash", Str(""))
    && Get(a[k].fields, "current_hash", Str("")) == Get(b[k].fields, "current_hash", Str(""))
  }

  /** What acceptance says about one event. */
  lemma AcceptedEvent(p: Primitives, chain: seq<Json>, k: nat)
    requires Accepted(p, chain) && k < |chain|
    ensures var e := chain[k];
      && e.Obj? && EqualsInt(p, EnvelopeOf(e.fields).sequenceNumber, k)
      && Get(e.fields, "previous_hash", Str("")) == Str(LinkHash(p, chain, k))
      && Get(e.fields, "current_hash", Str("")) == Str(LinkHash(p, chain, k + 1))
      && LinkHash(p, chain, k + 1) == p.sha256(Preimage(p, LinkHash(p, chain, k), e.fields))
  {
    hide Preimage;
    assert LinkedAt(p, chain, k);
  }

  lemma AcceptedHashIsDigest(p: Primitives, chain: seq<Json>, k: nat)
    requires Standard(p) && Accepted(p, chain) && k <= |chain|
    ensures IsDigest(LinkHash(p, chain, k))
  {
    LinkHashIsDigest(p, chain, k);
  }

  lemma EqualCanonEqualEnvelope(p: Primitives, a: seq<Json>, b: seq<Json>, i: nat, j: nat)
    requires Distinguishes(p, a, b) && i < |a| && j < |b| && a[i].Obj? && b[j].Obj?
    requires p.canon(EnvelopeOf(a[i].fields)) == p.canon(EnvelopeOf(b[j].fields))
    ensures EnvelopeOf(a[i].fields) == EnvelopeOf(b[j].fields)
  {
    hide EnvelopeOf;
    assert Apart(p, a[i].fields, b[j].fields);
  }

  lemma EqualHashEqualPreimage(p: Primitives, a: seq<Json>, b: seq<Json>, i: nat, j: nat)
    requires i < |a| && j < |b| && a[i].Obj? && b[j].Obj? && !HaveCollision(p, a, b)
    requires p.sha256(Preimage(p, LinkHash(p, a, i), a[i].fields))
          == p.sha256(Preimage(p, LinkHash(p, b, j), b[j].fields))
    ensures Preimage(p, LinkHash(p, a, i), a[i].fields) == Preimage(p, LinkHash(p, b, j), b[j].fields)
  {
    hide Preimage, LinkHash;
    assert !CollideAt(p, a, b, i, j);
  }

  lemma EqualHashEqualEvent(p: Primitives, a: seq<Json>, b: seq<Json>, i: nat, j: nat)
    requires Standard(p) && Distinguishes(p, a, b) && Accepted(p, a) && Accepted(p, b) && !HaveCollision(p, a, b)
    requires 0 < i <= |a| && 0 < j <= |b| && LinkHash(p, a, i) == LinkHash(p, b, j)
    ensures i == j && AgreeAt(a, b, i - 1) && LinkHash(p, a, i - 1) == LinkHash(p, b, j - 1)
  {
    hide Standard, Distinguishes, Accepted, HaveCollision, LinkHash, Preimage, EnvelopeOf;
    hide EqualsInt, IsDigest, GENESIS, Get;
    var x, y := a[i - 1], b[j - 1];
    AcceptedHashIsDigest(p, a, i - 1);
    AcceptedHashIsDigest(p, b, j - 1);
    AcceptedEvent(p, a, i - 1);
    AcceptedEvent(p, b, j - 1);
    EqualHashEqualPreimage(p, a, b, i - 1, j - 1);
    PreimageSplits(p, LinkHash(p, a, i - 1), x.fields, LinkHash(p, b, j - 1), y.fields);
    EqualCanonEqualEnvelope(p, a, b, i - 1, j - 1);
    SequenceFixesPosition(p, EnvelopeOf(x.fields).sequenceNumber, i - 1, j - 1);
  }

  /** If the chains meet in one hash, they are the same chain up to there. */
  lemma {:induction false} MeetingChainsAgree(p: Primitives, a: seq<Json>, b: seq<Json>, i: nat, j: nat)
    requires Standard(p) && Distinguishes(p, a, b) && Accepted(p, a) && Accepted(p, b) && !HaveCollision(p, a, b)
    requires 0 < i <= |a| && 0 < j <= |b| && LinkHash(p, a, i) == LinkHash(p, b, j)
    ensures i == j && forall k :: 0 <= k < i ==> AgreeAt(a, b, k)
    decreases i
  {
    EqualHashEqualEvent(p, a, b, i, j);
    if i > 1 {
      MeetingChainsAgree(p, a, b, i - 1, j - 1);
    }
  }

  function LastHash(chain: seq<Json>): Json
    requires chain != [] && chain[|chain| - 1].Obj?
  {
    Get(chain[|chain| - 1].fields, "current_hash", Str(""))
  }

  /** Two accepted chains whose last events carry the same `current_hash` have the same length and agree on
      every hashed field of every event, or their preimages contain a SHA-256 collision. */
  lemma LastHashFixesChain(p: Primitives, a: seq<Json>, b: seq<Json>)
    requires Standard(p) && Distinguishes(p, a, b) && Accepted(p, a) && Accepted(p, b) && a != [] && b != []
    requires a[|a| - 1].Obj? && b[|b| - 1].Obj? && LastHash(a) == LastHash(b)
    ensures HaveCollision(p, a, b) || (|a| == |b| && forall k :: 0 <= k < |a| ==> AgreeAt(a, b, k))
  {
    assert LinkedAt(p, a, |a| - 1);
    assert LinkedAt(p, b, |b| - 1);
    if !HaveCollision(p, a, b) {
      MeetingChainsAgree(p, a, b, |a|, |b|);
    }
  }

  /** The link hashes depend on the hashed fields only. */
  lemma {:induction false} SameEnvelopesSameLinks(p: Primitives, a: seq<Json>, b: seq<Json>, n: nat)
    requires n <= |a| && n <= |b|
    requires forall i :: 0 <= i < n ==> a[i].Obj? && b[i].Obj? && EnvelopeOf(a[i].fields) == EnvelopeOf(b[i].fields)
    ensures LinkHash(p, a, n) == LinkHash(p, b, n)
  {
    if n > 0 { SameEnvelopesSameLinks(p, a, b, n - 1); }
  }

  /** Replacing one event of an accepted chain, and nothing behind it, goes unnoticed exactly when both hashes and
      all hashed fields stay what they were, up to a SHA-256 collision. */
  lemma EditIsAcceptedIff(p: Primitives, chain: seq<Json>, k: nat, forged: Json)
    requires Standard(p) && Accepted(p, chain) && k < |chain| - 1
    requires Distinguishes(p, chain, chain[k := forged]) && !HaveCollision(p, chain, chain[k := forged])
    ensures Accepted(p, chain[k := forged]) <==> AgreeAt(chain, chain[k := forged], k)
  {
    var edited := chain[k := forged];
    assert LinkedAt(p, chain, |chain| - 1) && LinkedAt(p, chain, k);
    if Accepted(p, edited) {
      LastHashFixesChain(p, chain, edited);
    }
    if AgreeAt(chain, edited, k) {
      forall i | 0 <= i < |chain| ensures LinkedAt(p, edited, i) {
        AgreeingEditKeepsLink(p, chain, k, forged, i);
      }
    }
  }

  lemma AgreeingEditKeepsLink(p: Primitives, chain: seq<Json>, k: nat, forged: Json, i: nat)
    requires Accepted(p, chain) && k < |chain| && AgreeAt(chain, chain[k := forged], k) && i < |chain|
    ensures LinkedAt(p, chain[k := forged], i)
  {
    var edited := chain[k := forged];
    forall j | 0 <= j < i
      ensures chain[j].Obj? && edited[j].Obj? && EnvelopeOf(chain[j].fields) == EnvelopeOf(edited[j].fields)
    {
      assert LinkedAt(p, chain, j);
    }
    SameEnvelopesSameLinks(p, chain, edited, i);
    assert LinkedAt(p, chain, i);
  }

  /** In particular changing a hashed field is detected, or exhibits a collision. */
  lemma EditIsDetected(p: Primitives, chain: seq<Json>, k: nat, forged: Json)
    requires Standard(p) && Accepted(p, chain) && k < |chain| - 1 && Distinguishes(p, chain, chain[k := forged])
    requires forged.Obj? && chain[k].Obj? && EnvelopeOf(forged.fields) != EnvelopeOf(chain[k].fields)
    ensures !Accepted(p, chain[k := forged]) || HaveCollision(p, chain, chain[k := forged])
  {
    if !HaveCollision(p, chain, chain[k := forged]) {
      EditIsAcceptedIff(p, chain, k, forged);
    }
  }

  // ---------- Acceptance, spelled out ----------

  /** The value of a field, or the default for a missing one. */
  function FieldOf(ev: map<string, Json>, name: string, default: Json): Json {
    if name in ev then ev[name] else default
  }

  /** `e` is the event at position `k` behind the hash `previous`: its number is `k`, it names that hash, and its own
      hash is the SHA-256 of that hash followed by the canonical JSON of its eight fields. */
  predicate Continues(p: Primitives, e: Json, k: nat, previous: string) {
    && e.Obj?
    && (match FieldOf(e.fields, "sequence_number", Null)
        case Int(n) => n == k
        case Bool(b) => k == (if b then 1 else 0)
        case Float(repr) => p.integral(repr) == Some(k)
        case _ => false)
    && FieldOf(e.fields, "previous_hash", Str("")) == Str(previous)
    && FieldOf(e.fields, "current_hash", Str("")) == Str(p.sha256(p.utf8(previous) + p.canon(Envelope(
         FieldOf(e.fields, "sequence_number", Null), FieldOf(e.fields, "event_id", Str("")),
         FieldOf(e.fields, "case_id", Str("")), FieldOf(e.fields, "timestamp", Str("")),
         FieldOf(e.fields, "actor", Str("")), FieldOf(e.fields, "event_type", Str("")),
         FieldOf(e.fields, "operation_id", Null), FieldOf(e.fields, "canonical_payload", Obj(map[]))))))
  }

  /** What the event at position `k` has to name: 64 zeros at the start, then the hash of the event before it. */
  function HashBefore(chain: seq<Json>, k: nat): string
    requires k <= |chain|
  {
    if k == 0 then seq(64, _ => '0')
    else if chain[k - 1].Obj? && FieldOf(chain[k - 1].fields, "current_hash", Str("")).Str?
    then FieldOf(chain[k - 1].fields, "current_hash", Str("")).s else ""
  }

  lemma GenesisIsZeros()
    ensures GENESIS == seq(64, _ => '0')
  {}

  lemma LinkedMeans(p: Primitives, chain: seq<Json>, k: nat)
    requires k < |chain|
    ensures LinkedAt(p, chain, k) <==> Continues(p, chain[k], k, LinkHash(p, chain, k))
  {
    hide LinkHash;
  }

  lemma {:induction false} HashesMean(p: Primitives, chain: seq<Json>, k: nat)
    requires k <= |chain| && forall j :: 0 <= j < k ==> LinkedAt(p, chain, j)
    ensures HashBefore(chain, k) == LinkHash(p, chain, k)
  {
    if k == 0 {
      GenesisIsZeros();
    } else {
      assert LinkedAt(p, chain, k - 1);
      hide GENESIS, Preimage;
    }
  }

  /** A chain is accepted exactly when every event continues the one before it. */
  lemma {:induction false} AcceptedMeans(p: Primitives, chain: seq<Json>, n: nat)
    requires n <= |chain|
    ensures AcceptedUpTo(p, chain, n) <==>
      forall k :: 0 <= k < n ==> Continues(p, chain[k], k, HashBefore(chain, k))
  {
    hide Continues, LinkedAt, HashBefore;
    if n > 0 {
      AcceptedMeans(p, chain, n - 1);
      LinkedMeans(p, chain, n - 1);
      if AcceptedUpTo(p, chain, n - 1) {
        HashesMean(p, chain, n - 1);
      }
    }
  }

  // ---------- Growing and cutting chains ----------

  lemma {:induction false} LinkHashPrefix(p: Primitives, chain: seq<Json>, m: nat, n: nat)
    requires n <= m <= |chain|
    ensures LinkHash(p, chain[..m], n) == LinkHash(p, chain, n)
  {
    if n > 0 { LinkHashPrefix(p, chain, m, n - 1); }
  }

  /** Every prefix of an accepted chain is accepted. */
  lemma PrefixIsAccepted(p: Primitives, chain: seq<Json>, m: nat)
    requires Accepted(p, chain) && m <= |chain|
    ensures Accepted(p, chain[..m])
  {
    forall i | 0 <= i < m ensures LinkedAt(p, chain[..m], i) {
      LinkHashPrefix(p, chain, m, i);
      assert LinkedAt(p, chain, i);
    }
  }

  /** An accepted chain can be extended exactly by events that continue it. */
  lemma AppendIsAcceptedIff(p: Primitives, chain: seq<Json>, entry: Json)
    requires Accepted(p, chain)
    ensures Accepted(p, chain + [entry]) <==> EventOk(p, entry, |chain|, LinkHash(p, chain, |chain|))
  {
    var longer := chain + [entry];
    assert longer[..|chain|] == chain && longer[|chain|] == entry;
    forall i | 0 <= i <= |chain| ensures LinkHash(p, longer, i) == LinkHash(p, chain, i) {
      LinkHashPrefix(p, longer, |chain|, i);
    }
    if Accepted(p, longer) {
      assert LinkedAt(p, longer, |chain|);
    }
    forall i | 0 <= i < |chain| ensures LinkedAt(p, longer, i) {
      assert LinkedAt(p, chain, i);
    }
  }

  /** The values the verifier substitutes for missing fields. */
  const DEFAULTS: map<string, Json> :=
    map["sequence_number" := Null, "previous_hash" := Str(""), "current_hash" := Str(""),
        "event_id" := Str(""), "case_id" := Str(""), "timestamp" := Str(""), "actor" := Str(""),
        "event_type" := Str(""), "operation_id" := Null, "canonical_payload" := Obj(map[])]

  /** It cannot tell a missing field from its default: deleting one goes unnoticed, whichever field it is. */
  lemma MissingFieldLooksDefault(p: Primitives, ev: map<string, Json>, field: string, index: nat, expected: string)
    requires field in DEFAULTS && field in ev && ev[field] == DEFAULTS[field]
    ensures EventOk(p, Obj(ev), index, expected) <==> EventOk(p, Obj(ev - {field}), index, expected)
  {
    forall key | key in DEFAULTS ensures Get(ev, key, DEFAULTS[key]) == Get(ev - {field}, key, DEFAULTS[key]) {}
    DefaultsAreUsed(ev);
    DefaultsAreUsed(ev - {field});
  }

  /** Everything the verifier reads of an event, it reads with that default. */
  lemma DefaultsAreUsed(ev: map<string, Json>)
    ensures var read := (key: string) => if key in DEFAULTS then Get(ev, key, DEFAULTS[key]) else Null;
      && EnvelopeOf(ev) == Envelope(read("sequence_number"), read("event_id"), read("case_id"), read("timestamp"),
                                    read("actor"), read("event_type"), read("operation_id"), read("canonical_payload"))
      && Get(ev, "previous_hash", Str("")) == read("previous_hash")
      && Get(ev, "current_hash", Str("")) == read("current_hash")
  {}
}
