/** A small instance of the audit ledger that meets every hypothesis of its tamper-evidence lemmas at once: two
    events, the first of which is forged so well that it is accepted by itself. */
module AuditExample {
  import opened Basics
  import opened AuditChain

  // ---------- Its primitives ----------

  function HexByte(c: char): bv8 {
    match c
    case '0' => 0 case '1' => 1 case '2' => 2 case '3' => 3 case '4' => 4 case '5' => 5 case '6' => 6 case '7' => 7
    case '8' => 8 case '9' => 9 case 'a' => 10 case 'b' => 11 case 'c' => 12 case 'd' => 13 case 'e' => 14
    case _ => 15
  }

  function HexBytes(s: string): Bytes { seq(|s|, i requires 0 <= i < |s| => HexByte(s[i])) }

  lemma HexBytesDiffer(s: string, t: string)
    requires IsDigest(s) && IsDigest(t) && HexBytes(s) == HexBytes(t)
    ensures s == t
  {
    forall i | 0 <= i < 64 ensures s[i] == t[i] {
      assert HexBytes(s)[i] == HexBytes(t)[i];
    }
  }

  function Flag(b: bool): bv8 { if b then 1 else 0 }

  /** The serialisation: is it a later event, and is the actor the forger? */
  function Canon(e: Envelope): Bytes {
    [Flag(e.sequenceNumber != Int(0)), Flag(e.actor == Str("forger"))]
  }

  function Repeated(c: char): string { seq(64, _ => c) }

  /** The hash: one digit, 64 times, that tells the four preimages of the example apart. */
  function Hash(b: Bytes): string {
    Repeated(if |b| != 66 then '0'
             else if b[64] == 0 then (if b[65] == 0 then 'a' else 'b')
             else if b[0] == HexByte('a') then 'c' else 'd')
  }

  const SMALL := Primitives(Canon, Hash, HexBytes, (_: string) => None)

  lemma SmallIsStandard()
    ensures Standard(SMALL)
  {
    forall s, t | IsDigest(s) && IsDigest(t) && HexBytes(s) == HexBytes(t) ensures s == t {
      HexBytesDiffer(s, t);
    }
  }

  // ---------- Its events ----------

  function Event(n: nat, actor: string, previous: string, current: string): Json {
    Obj(map["sequence_number" := Int(n), "actor" := Str(actor), "previous_hash" := Str(previous),
            "current_hash" := Str(current)])
  }

  function FirstDigit(b: bool): char { if b then 'b' else 'a' }

  function NextDigit(b: bool): char { if b then 'd' else 'c' }

  lemma EventIs(n: nat, actor: string, previous: string, current: string)
    ensures var ev := Event(n, actor, previous, current).fields;
      && Get(ev, "previous_hash", Str("")) == Str(previous) && Get(ev, "current_hash", Str("")) == Str(current)
      && Get(ev, "sequence_number", Null) == Int(n) && EnvelopeOf(ev).actor == Str(actor)
      && Canon(EnvelopeOf(ev)) == [Flag(n != 0), Flag(actor == "forger")]
  {}

  /** The two events, with the hashes that make the chain accepted. */
  function First(actor: string): Json {
    Event(0, actor, GENESIS, Repeated(FirstDigit(actor == "forger")))
  }

  function Second(): Json { Event(1, "clerk", Repeated('a'), Repeated('c')) }

  /** What the first event hashes to, and what the second one hashes to behind it. */
  lemma HashesAre(actor: string)
    ensures EnvelopeHash(SMALL, GENESIS, First(actor).fields) == Repeated(FirstDigit(actor == "forger"))
    ensures var h := Repeated(FirstDigit(actor == "forger"));
      EnvelopeHash(SMALL, h, Second().fields) == Repeated(NextDigit(actor == "forger"))
  {
    EventIs(0, actor, GENESIS, Repeated(FirstDigit(actor == "forger")));
    EventIs(1, "clerk", Repeated('a'), Repeated('c'));
    hide EnvelopeOf, Canon, Event;
    GenesisIsDigest();
    hide GENESIS;
  }

  /** The link hashes of the chain that starts with an event of this actor. */
  lemma LinksAre(actor: string)
    ensures var chain, forged := [First(actor), Second()], actor == "forger";
      && LinkHash(SMALL, chain, 0) == GENESIS && LinkHash(SMALL, chain, 1) == Repeated(FirstDigit(forged))
      && LinkHash(SMALL, chain, 2) == Repeated(NextDigit(forged))
  {
    HashesAre(actor);
    hide EnvelopeHash, GENESIS, Repeated;
  }

  lemma ClerkIsAccepted()
    ensures Accepted(SMALL, [First("clerk"), Second()]) && EventOk(SMALL, First("forger"), 0, GENESIS)
  {
    EventIs(0, "clerk", GENESIS, Repeated('a'));
    EventIs(0, "forger", GENESIS, Repeated('b'));
    EventIs(1, "clerk", Repeated('a'), Repeated('c'));
    HashesAre("clerk");
    HashesAre("forger");
    LinksAre("clerk");
    hide GENESIS, EnvelopeHash, LinkHash, Repeated, Event, Get;
  }

  /** The serialisation tells all events of the example apart that differ. */
  lemma ForgedIsDistinguished()
    ensures Distinguishes(SMALL, [First("clerk"), Second()], [First("forger"), Second()])
    ensures EnvelopeOf(First("clerk").fields) != EnvelopeOf(First("forger").fields)
  {
    EventIs(0, "clerk", GENESIS, Repeated('a'));
    EventIs(0, "forger", GENESIS, Repeated('b'));
    EventIs(1, "clerk", Repeated('a'), Repeated('c'));
    hide GENESIS, EnvelopeOf, Canon, Repeated, Event;
  }

  /** All hashes of one chain differ from all hashes of the other. */
  lemma NoCollision()
    ensures !HaveCollision(SMALL, [First("clerk"), Second()], [First("forger"), Second()])
  {
    HashesAre("clerk");
    HashesAre("forger");
    LinksAre("clerk");
    LinksAre("forger");
    DigitsDiffer();
    hide GENESIS, LinkHash, Repeated, Event, Preimage;
  }

  lemma DigitsDiffer()
    ensures forall c, d :: Repeated(c) == Repeated(d) ==> c == d
  {
    forall c, d | Repeated(c) == Repeated(d) ensures c == d {
      assert Repeated(c)[0] == c && Repeated(d)[0] == d;
    }
  }

  /** The chain of the clerk is accepted; forging its first event, recomputed hash and all, meets the hypotheses of
      `EditIsAcceptedIff` and is detected. */
  lemma ForgeryIsDetected()
    ensures Standard(SMALL)
    ensures var chain := [First("clerk"), Second()]; var edited := chain[0 := First("forger")];
      && Accepted(SMALL, chain) && EnvelopeOf(chain[0].fields) != EnvelopeOf(edited[0].fields)
      && EventOk(SMALL, edited[0], 0, GENESIS)
      && Distinguishes(SMALL, chain, edited) && !HaveCollision(SMALL, chain, edited) && !Accepted(SMALL, edited)
  {
    var chain := [First("clerk"), Second()];
    var edited := chain[0 := First("forger")];
    assert edited == [First("forger"), Second()];
    SmallIsStandard();
    ClerkIsAccepted();
    ForgedIsDistinguished();
    NoCollision();
    EditIsDetected(SMALL, chain, 0, First("forger"));
  }
}
