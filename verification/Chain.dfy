/** The evidence hash chain (verify/chain.go, verify/zz_chainhash.go): recomputing an export from
    genesis, and why two exports that recompute cannot disagree below a common hash. */
module Chain {
  import opened Options
  import opened Text

  /** What the verifier calls and this model does not open: the hex SHA-256 of a string, the canonical
      form of a JSON payload, and the RFC 3339 rendering of an instant. */
  datatype Primitives = Primitives(
    hash: string -> string,
    canonical: string -> Option<string>,
    stamp: int -> string)

  const SEPARATOR := '|'

  function Genesis(): string { seq(64, _ => '0') }

  /** The assumptions: the hash tells inputs apart, never yields genesis and holds no separator; the
      rendering tells microsecond instants apart and holds no separator. */
  ghost predicate Faithful(p: Primitives) {
    (forall a, b | p.hash(a) == p.hash(b) :: a == b)
    && (forall a :: p.hash(a) != Genesis() && SEPARATOR !in p.hash(a))
    && (forall t, u | p.stamp(Micro(t)) == p.stamp(Micro(u)) :: Micro(t) == Micro(u))
    && forall t :: SEPARATOR !in p.stamp(t)
  }

  /** An instant in nanoseconds truncated to the microsecond. */
  function Micro(t: int): int { t - t % 1000 }

  datatype Mark = Absent | Null | Named(id: string) | Malformed

  datatype Event = Event(
    id: string,
    archId: string,
    version: int,
    typ: string,
    payload: string,
    payloadHash: string,
    prevHash: string,
    hash: string,
    actor: string,
    ts: int,
    seqNo: Option<int>,
    anchoredBy: Mark)

  datatype Receipt = Receipt(
    id: string,
    headHash: string,
    headSeq: int,
    headEventId: string,
    eventId: string,
    receiptSHA256: string,
    signedAt: Option<int>,
    status: string,
    token: string,
    certChain: string)

  datatype Export = Export(archId: string, events: seq<Event>, headHash: string, count: Option<int>, anchors: seq<Receipt>)

  // ---- the hash of an event ----------------------------------------------------------------------

  function Parts(p: Primitives, prevHash: string, payloadHash: string, typ: string, actor: string, version: int, ts: int): seq<string> {
    [prevHash, payloadHash, typ, actor, Itoa(version), p.stamp(Micro(ts))]
  }

  function ChainHash(p: Primitives, prevHash: string, payloadHash: string, typ: string, actor: string, version: int, ts: int): string {
    p.hash(Join(Parts(p, prevHash, payloadHash, typ, actor, version, ts), SEPARATOR))
  }

  /** PayloadHash: the hash of the canonical payload, or nothing when it is not JSON. */
  function PayloadHash(p: Primitives, payload: string): Option<string> {
    var c := p.canonical(payload);
    if c.None? then None else Some(p.hash(c.value))
  }

  function Recomputed(p: Primitives, e: Event): string {
    var ph := PayloadHash(p, e.payload);
    ChainHash(p, e.prevHash, if ph.Some? then ph.value else "", e.typ, e.actor, e.version, e.ts)
  }

  function PreviousHash(events: seq<Event>, i: nat): string
    requires i < |events|
  {
    if i == 0 then Genesis() else events[i - 1].hash
  }

  /** The event's architecture, payload, link and hash match. */
  predicate Links(p: Primitives, archId: string, e: Event, prev: string) {
    !(archId != "" && e.archId != "" && e.archId != archId)
    && PayloadHash(p, e.payload) == Some(e.payloadHash)
    && e.prevHash == prev
    && Recomputed(p, e) == e.hash
  }

  /** Event i recomputes. */
  predicate LinkHolds(p: Primitives, x: Export, i: nat)
    requires i < |x.events|
  {
    Links(p, x.archId, x.events[i], PreviousHash(x.events, i))
  }

  /** The first n events recompute without a break. */
  predicate IntactTo(p: Primitives, x: Export, n: nat) {
    n <= |x.events| && forall i | 0 <= i < n :: LinkHolds(p, x, i)
  }

  // ---- tamper evidence ---------------------------------------------------------------------------

  /** What the hash shows of an event's type and actor: the two joined. */
  function Signature(typ: string, actor: string): string { typ + [SEPARATOR] + actor }

  /** The facts an event's hash commits to, whatever its type and actor hold. */
  predicate SameCore(p: Primitives, a: Event, b: Event) {
    p.canonical(a.payload) == p.canonical(b.payload) && a.version == b.version && Micro(a.ts) == Micro(b.ts)
    && Signature(a.typ, a.actor) == Signature(b.typ, b.actor)
  }

  /** The facts of an event in full. */
  predicate SameEvent(p: Primitives, a: Event, b: Event) {
    p.canonical(a.payload) == p.canonical(b.payload)
    && a.typ == b.typ && a.actor == b.actor && a.version == b.version && Micro(a.ts) == Micro(b.ts)
  }

  /** Two events agree on all the hash shows, and in full when one of them is plain. */
  predicate EventsAgree(p: Primitives, a: Event, b: Event) {
    SameCore(p, a, b) && (Plain(a) || Plain(b) ==> SameEvent(p, a, b))
  }

  predicate Plain(e: Event) {
    SEPARATOR !in e.typ && SEPARATOR !in e.actor
  }

  lemma {:induction false} GenesisPlain()
    ensures SEPARATOR !in Genesis()
  {}

  lemma {:induction false} HashIsChained(p: Primitives, x: Export, n: nat, i: nat)
    requires Faithful(p) && IntactTo(p, x, n) && i < n
    ensures x.events[i].hash == Recomputed(p, x.events[i]) && x.events[i].hash != Genesis()
    ensures SEPARATOR !in x.events[i].prevHash && SEPARATOR !in x.events[i].payloadHash
  {
    assert LinkHolds(p, x, i);
    GenesisPlain();
    if i > 0 {
      assert LinkHolds(p, x, i - 1);
    }
  }

  lemma NumberPlain(i: int)
    ensures SEPARATOR !in Itoa(i)
  {
    if SEPARATOR in Itoa(i) {
      ItoaChars(i, SEPARATOR);
    }
  }

  /** The pieces of the hashed text: only the type and the actor can hold the separator. */
  lemma {:induction false} HashPieces(p: Primitives, prevHash: string, payloadHash: string, e: Event)
    requires Faithful(p) && SEPARATOR !in prevHash && SEPARATOR !in payloadHash
    ensures Pieces(Parts(p, prevHash, payloadHash, e.typ, e.actor, e.version, e.ts), SEPARATOR)
         == [prevHash, payloadHash] + Split(Signature(e.typ, e.actor), SEPARATOR) + [Itoa(e.version), p.stamp(Micro(e.ts))]
  {
    var t := p.stamp(Micro(e.ts));
    NumberPlain(e.version);
    SplitWord(prevHash, SEPARATOR);
    SplitWord(payloadHash, SEPARATOR);
    SplitWord(Itoa(e.version), SEPARATOR);
    SplitWord(t, SEPARATOR);
    SplitAppend(e.typ, e.actor, SEPARATOR);
    SixPieces(prevHash, payloadHash, e.typ, e.actor, Itoa(e.version), t);
    Gathered(prevHash, payloadHash, Split(e.typ, SEPARATOR), Split(e.actor, SEPARATOR), Itoa(e.version), t);
  }

  lemma Gathered<T>(a: T, b: T, xs: seq<T>, ys: seq<T>, c: T, d: T)
    ensures [a] + ([b] + (xs + (ys + ([c] + [d])))) == [a, b] + (xs + ys) + [c, d]
  {}

  lemma {:induction false} SixPieces(a: string, b: string, c: string, d: string, e: string, f: string)
    ensures Pieces([a, b, c, d, e, f], SEPARATOR)
         == Split(a, SEPARATOR) + (Split(b, SEPARATOR) + (Split(c, SEPARATOR) + (Split(d, SEPARATOR)
            + (Split(e, SEPARATOR) + Split(f, SEPARATOR)))))
  {
    PiecesFirst(a, [b, c, d, e, f]);
    PiecesFirst(b, [c, d, e, f]);
    PiecesFirst(c, [d, e, f]);
    PiecesFirst(d, [e, f]);
    PiecesFirst(e, [f]);
    assert [a] + [b, c, d, e, f] == [a, b, c, d, e, f] && [b] + [c, d, e, f] == [b, c, d, e, f];
    assert [c] + [d, e, f] == [c, d, e, f] && [d] + [e, f] == [d, e, f] && [e] + [f] == [e, f];
  }

  lemma PiecesFirst(a: string, rest: seq<string>)
    requires rest != []
    ensures Pieces([a] + rest, SEPARATOR) == Split(a, SEPARATOR) + Pieces(rest, SEPARATOR)
  {
    assert ([a] + rest)[1..] == rest;
  }

  lemma MiddleSame<T>(a: T, b: T, xs: seq<T>, e: T, f: T, c: T, d: T, ys: seq<T>, g: T, h: T)
    requires [a, b] + xs + [e, f] == [c, d] + ys + [g, h]
    ensures a == c && b == d && xs == ys && e == g && f == h
  {
    var s, t := [a, b] + xs + [e, f], [c, d] + ys + [g, h];
    assert |s| == |xs| + 4 && |t| == |ys| + 4;
    assert s[0] == a && s[1] == b && s[|s| - 2] == e && s[|s| - 1] == f && s[2..|s| - 2] == xs;
    assert t[0] == c && t[1] == d && t[|t| - 2] == g && t[|t| - 1] == h && t[2..|t| - 2] == ys;
  }

  /** Equal hashes mean equal previous hashes and events that agree. */
  lemma {:induction false} HashCommits(p: Primitives, a: Event, b: Event)
    requires Faithful(p) && SEPARATOR !in a.prevHash && SEPARATOR !in b.prevHash
    requires PayloadHash(p, a.payload).Some? && PayloadHash(p, b.payload).Some?
    requires Recomputed(p, a) == Recomputed(p, b)
    ensures EventsAgree(p, a, b) && a.prevHash == b.prevHash
  {
    var pa, pb := PayloadHash(p, a.payload).value, PayloadHash(p, b.payload).value;
    JoinSame(Parts(p, a.prevHash, pa, a.typ, a.actor, a.version, a.ts),
             Parts(p, b.prevHash, pb, b.typ, b.actor, b.version, b.ts), SEPARATOR);
    HashPieces(p, a.prevHash, pa, a);
    HashPieces(p, b.prevHash, pb, b);
    MiddleSame(a.prevHash, pa, Split(Signature(a.typ, a.actor), SEPARATOR), Itoa(a.version), p.stamp(Micro(a.ts)),
               b.prevHash, pb, Split(Signature(b.typ, b.actor), SEPARATOR), Itoa(b.version), p.stamp(Micro(b.ts)));
    JoinSplit(Signature(a.typ, a.actor), SEPARATOR);
    JoinSplit(Signature(b.typ, b.actor), SEPARATOR);
    ItoaInjective(a.version, b.version);
    PlainAgrees(p, a, b);
  }

  /** One plain event is enough to tell the type from the actor. */
  lemma {:induction false} PlainAgrees(p: Primitives, a: Event, b: Event)
    requires SameCore(p, a, b)
    ensures EventsAgree(p, a, b)
  {
    if (a.typ, a.actor) != (b.typ, b.actor) {
      PlainSplitsOnce(a.typ, a.actor, b.typ, b.actor);
      PlainSplitsOnce(b.typ, b.actor, a.typ, a.actor);
    }
  }

  /** If two exports recompute without a break up to two events with the same hash, the events sit at
      the same position and the exports agree on every event up to there. */
  lemma {:induction false} TamperEvidence(p: Primitives, x: Export, y: Export, m: nat, n: nat, i: nat, j: nat)
    requires Faithful(p) && IntactTo(p, x, m) && IntactTo(p, y, n) && i < m && j < n
    requires x.events[i].hash == y.events[j].hash
    ensures i == j
    ensures forall k | 0 <= k <= i :: EventsAgree(p, x.events[k], y.events[k]) && x.events[k].hash == y.events[k].hash
    decreases i
  {
    HashIsChained(p, x, m, i);
    HashIsChained(p, y, n, j);
    assert LinkHolds(p, x, i) && LinkHolds(p, y, j);
    HashCommits(p, x.events[i], y.events[j]);
    if i > 0 && j > 0 {
      TamperEvidence(p, x, y, m, n, i - 1, j - 1);
    } else if i > 0 {
      HashIsChained(p, x, m, i - 1);
    } else if j > 0 {
      HashIsChained(p, y, n, j - 1);
    }
  }

  /** No two events of one intact chain share a hash. */
  lemma HashesAreDistinct(p: Primitives, x: Export, n: nat, i: nat, j: nat)
    requires Faithful(p) && IntactTo(p, x, n) && i < n && j < n
    requires x.events[i].hash == x.events[j].hash
    ensures i == j
  {
    TamperEvidence(p, x, x, n, n, i, j);
  }

  // ---- what the hash does not commit to ----------------------------------------------------------

  lemma {:induction false} JoinParts(p: Primitives, prevHash: string, payloadHash: string, typ: string, actor: string, version: int, ts: int)
    returns (front: string, back: string)
    ensures front == Join([prevHash, payloadHash], SEPARATOR) + [SEPARATOR]
    ensures back == [SEPARATOR] + Join([Itoa(version), p.stamp(Micro(ts))], SEPARATOR)
    ensures Join(Parts(p, prevHash, payloadHash, typ, actor, version, ts), SEPARATOR) == front + Signature(typ, actor) + back
  {
    var first, last := [prevHash, payloadHash], [Itoa(version), p.stamp(Micro(ts))];
    front, back := Join(first, SEPARATOR) + [SEPARATOR], [SEPARATOR] + Join(last, SEPARATOR);
    assert Parts(p, prevHash, payloadHash, typ, actor, version, ts) == first + ([typ, actor] + last);
    JoinAppend(first, [typ, actor] + last, SEPARATOR);
    JoinAppend([typ, actor], last, SEPARATOR);
    assert [typ, actor] == [typ] + [actor];
    JoinAppend([typ], [actor], SEPARATOR);
    Regroup(Join(first, SEPARATOR), Signature(typ, actor), Join(last, SEPARATOR));
  }

  lemma Regroup(a: string, b: string, c: string)
    ensures a + [SEPARATOR] + (b + [SEPARATOR] + c) == (a + [SEPARATOR]) + b + ([SEPARATOR] + c)
  {}

  lemma SameMiddle(a: string, b: string, c: string, d: string)
    requires a + b + d == a + c + d
    ensures b == c
  {
    assert (a + b + d)[|a|..|a| + |b|] == b && (a + c + d)[|a|..|a| + |c|] == c;
  }

  /** With the other fields equal, the hashes are equal exactly when type and actor join to one text. */
  lemma {:induction false} HashSeesSignature(
    p: Primitives, prevHash: string, payloadHash: string, typ: string, actor: string, typ': string, actor': string, version: int, ts: int)
    requires Faithful(p)
    ensures ChainHash(p, prevHash, payloadHash, typ, actor, version, ts) == ChainHash(p, prevHash, payloadHash, typ', actor', version, ts)
            <==> Signature(typ, actor) == Signature(typ', actor')
  {
    var a, b := JoinParts(p, prevHash, payloadHash, typ, actor, version, ts);
    var c, d := JoinParts(p, prevHash, payloadHash, typ', actor', version, ts);
    if ChainHash(p, prevHash, payloadHash, typ, actor, version, ts) == ChainHash(p, prevHash, payloadHash, typ', actor', version, ts) {
      SameMiddle(a, Signature(typ, actor), Signature(typ', actor'), b);
    }
  }

  /** The type and the actor are another pair with the same joined text. */
  predicate Resplits(typ: string, actor: string, typ': string, actor': string) {
    (typ', actor') != (typ, actor) && Signature(typ', actor') == Signature(typ, actor)
  }

  lemma {:induction false} PlainSplitsOnce(typ: string, actor: string, typ': string, actor': string)
    requires Resplits(typ, actor, typ', actor')
    ensures SEPARATOR in typ || SEPARATOR in actor
  {
    var s, n := Signature(typ, actor), |typ'|;
    assert s[n] == Signature(typ', actor')[n] == SEPARATOR;
    assert typ == s[..|typ|] && actor == s[|typ| + 1..];
    assert typ' == Signature(typ', actor')[..n] && actor' == Signature(typ', actor')[n + 1..];
    if n < |typ| {
      assert typ[n] == s[n];
    } else if n > |typ| {
      assert actor[n - |typ| - 1] == s[n];
    }
  }

  lemma {:induction false} SeparatorSplits(typ: string, actor: string) returns (typ': string, actor': string)
    requires SEPARATOR in typ || SEPARATOR in actor
    ensures Resplits(typ, actor, typ', actor')
  {
    if SEPARATOR in typ {
      var k :| 0 <= k < |typ| && typ[k] == SEPARATOR;
      typ', actor' := typ[..k], typ[k + 1..] + [SEPARATOR] + actor;
      assert typ == typ[..k] + [SEPARATOR] + typ[k + 1..];
      assert |typ'| < |typ|;
    } else {
      var k :| 0 <= k < |actor| && actor[k] == SEPARATOR;
      typ', actor' := typ + [SEPARATOR] + actor[..k], actor[k + 1..];
      assert actor == actor[..k] + [SEPARATOR] + actor[k + 1..];
      assert |typ'| > |typ|;
    }
  }

  /** Exactly when the hash of an event fails to fix its type and actor: when one of them holds the
      separator. */
  lemma {:induction false} SeparatorMoves(
    p: Primitives, prevHash: string, payloadHash: string, typ: string, actor: string, version: int, ts: int)
    requires Faithful(p)
    ensures (exists typ', actor' :: (typ', actor') != (typ, actor)
              && ChainHash(p, prevHash, payloadHash, typ', actor', version, ts) == ChainHash(p, prevHash, payloadHash, typ, actor, version, ts))
            <==> SEPARATOR in typ || SEPARATOR in actor
  {
    if SEPARATOR in typ || SEPARATOR in actor {
      var typ', actor' := SeparatorSplits(typ, actor);
      HashSeesSignature(p, prevHash, payloadHash, typ, actor, typ', actor', version, ts);
    }
    forall typ', actor' | (typ', actor') != (typ, actor)
      && ChainHash(p, prevHash, payloadHash, typ', actor', version, ts) == ChainHash(p, prevHash, payloadHash, typ, actor, version, ts)
      ensures SEPARATOR in typ || SEPARATOR in actor
    {
      HashSeesSignature(p, prevHash, payloadHash, typ, actor, typ', actor', version, ts);
      PlainSplitsOnce(typ, actor, typ', actor');
    }
  }

  // ---- okAnchors ---------------------------------------------------------------------------------

  predicate IsOk(a: Receipt) { a.status == "" || a.status == "ok" }

  function OkOnly(anchors: seq<Receipt>): seq<Receipt> {
    if anchors == [] then []
    else OkOnly(anchors[..|anchors| - 1]) + if IsOk(anchors[|anchors| - 1]) then [anchors[|anchors| - 1]] else []
  }

  /** x goes after every receipt of its own or an earlier head. */
  function InsertByHead(s: seq<Receipt>, x: Receipt): seq<Receipt> {
    if s == [] || s[|s| - 1].headSeq <= x.headSeq then s + [x]
    else InsertByHead(s[..|s| - 1], x) + [s[|s| - 1]]
  }

  function SortByHead(s: seq<Receipt>): seq<Receipt> {
    if s == [] then [] else InsertByHead(SortByHead(s[..|s| - 1]), s[|s| - 1])
  }

  /** The ok receipts in head order. */
  function OkAnchors(anchors: seq<Receipt>): seq<Receipt> { SortByHead(OkOnly(anchors)) }

  predicate HeadOrder(s: seq<Receipt>) {
    forall i, j | 0 <= i < j < |s| :: s[i].headSeq <= s[j].headSeq
  }

  /** The receipts of one head, in order: what a stable sort keeps. */
  function OfHead(s: seq<Receipt>, h: int): seq<Receipt> {
    if s == [] then [] else OfHead(s[..|s| - 1], h) + if s[|s| - 1].headSeq == h then [s[|s| - 1]] else []
  }

  lemma {:induction false} InsertOrders(s: seq<Receipt>, x: Receipt)
    requires HeadOrder(s)
    ensures HeadOrder(InsertByHead(s, x)) && |InsertByHead(s, x)| == |s| + 1
    ensures forall r :: r in InsertByHead(s, x) <==> r in s || r == x
  {
    if s != [] && s[|s| - 1].headSeq > x.headSeq {
      var rest, last := s[..|s| - 1], s[|s| - 1];
      assert s == rest + [last];
      InsertOrders(rest, x);
      var r := InsertByHead(rest, x);
      forall i | 0 <= i < |r| ensures r[i].headSeq <= last.headSeq {
        assert r[i] in r;
      }
    }
  }

  lemma {:induction false} InsertKeeps(s: seq<Receipt>, x: Receipt, h: int)
    ensures OfHead(InsertByHead(s, x), h) == OfHead(s, h) + if x.headSeq == h then [x] else []
  {
    if s == [] || s[|s| - 1].headSeq <= x.headSeq {
      OfHeadMore(s, x, h);
    } else {
      var rest, last := s[..|s| - 1], s[|s| - 1];
      InsertKeeps(rest, x, h);
      OfHeadMore(InsertByHead(rest, x), last, h);
      assert last.headSeq == h ==> x.headSeq != h;
    }
  }

  lemma OfHeadMore(s: seq<Receipt>, x: Receipt, h: int)
    ensures OfHead(s + [x], h) == OfHead(s, h) + if x.headSeq == h then [x] else []
  {
    assert (s + [x])[..|s|] == s;
  }

  /** okAnchors sorts stably: in head order, and the receipts of one head in their original order. */
  lemma {:induction false} SortIsStable(s: seq<Receipt>, h: int)
    ensures HeadOrder(SortByHead(s)) && |SortByHead(s)| == |s|
    ensures OfHead(SortByHead(s), h) == OfHead(s, h)
    ensures forall r :: r in SortByHead(s) <==> r in s
  {
    if s != [] {
      var rest, last := s[..|s| - 1], s[|s| - 1];
      assert s == rest + [last];
      SortIsStable(rest, h);
      InsertOrders(SortByHead(rest), last);
      InsertKeeps(SortByHead(rest), last, h);
    }
  }
}
