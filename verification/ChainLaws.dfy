/** What the verifier's lines mean for the events, receipts and tokens of an export, field by field
    (verify/chain.go, verify/anchors.go). */
module ChainLaws {
  import opened Options
  import opened Text
  import opened Chain
  import opened Anchors
  import opened LongTerm

  // ---- the chain ---------------------------------------------------------------------------------

  /** The text an event's hash is taken of: previous hash, payload hash, type, actor, version in decimals and the
      instant to the microsecond, between bars. */
  function Hashed(p: Primitives, e: Event, payloadHash: string): string {
    e.prevHash + "|" + payloadHash + "|" + e.typ + "|" + e.actor + "|" + Itoa(e.version) + "|" + p.stamp(e.ts - e.ts % 1000)
  }

  lemma {:induction false} HashIsOfText(p: Primitives, e: Event, payloadHash: string)
    ensures ChainHash(p, e.prevHash, payloadHash, e.typ, e.actor, e.version, e.ts) == p.hash(Hashed(p, e, payloadHash))
  {
    var a, b, c, d, f, g := e.prevHash, payloadHash, e.typ, e.actor, Itoa(e.version), p.stamp(Micro(e.ts));
    assert [a, b, c, d, f, g][1..] == [b, c, d, f, g] && [b, c, d, f, g][1..] == [c, d, f, g];
    assert [c, d, f, g][1..] == [d, f, g] && [d, f, g][1..] == [f, g] && [f, g][1..] == [g];
    JoinSix(a, b, c, d, f, g);
    assert "|" == [SEPARATOR];
    assert Join([a, b, c, d, f, g], SEPARATOR) == a + "|" + b + "|" + c + "|" + d + "|" + f + "|" + g;
  }

  lemma {:induction false} JoinSix(a: string, b: string, c: string, d: string, f: string, g: string)
    ensures Join([a, b, c, d, f, g], '|') == a + ("|" + (b + ("|" + (c + ("|" + (d + ("|" + (f + ("|" + g)))))))))
  {
    JoinTwo(a, [b, c, d, f, g]);
    JoinTwo(b, [c, d, f, g]);
    JoinTwo(c, [d, f, g]);
    JoinTwo(d, [f, g]);
    JoinTwo(f, [g]);
    assert [a] + [b, c, d, f, g] == [a, b, c, d, f, g] && [b] + [c, d, f, g] == [b, c, d, f, g];
    assert [c] + [d, f, g] == [c, d, f, g] && [d] + [f, g] == [d, f, g] && [f] + [g] == [f, g];
  }

  lemma JoinTwo(a: string, rest: seq<string>)
    requires rest != []
    ensures Join([a] + rest, '|') == a + ("|" + Join(rest, '|'))
  {
    assert ([a] + rest)[1..] == rest;
  }

  /** The first event follows sixty-four zeros, every other the event before it. */
  predicate Follows(x: Export, i: nat)
    requires i < |x.events|
  {
    if i == 0 then |x.events[0].prevHash| == 64 && forall k | 0 <= k < 64 :: x.events[0].prevHash[k] == '0'
    else x.events[i].prevHash == x.events[i - 1].hash
  }

  /** The event's payload is JSON and hashes to its payload hash, and it hashes to its hash. */
  predicate HashesRight(p: Primitives, e: Event) {
    var c := p.canonical(e.payload);
    c.Some? && e.payloadHash == p.hash(c.value) && e.hash == p.hash(Hashed(p, e, e.payloadHash))
  }

  /** The event names no architecture other than the export's. */
  predicate OfExport(x: Export, e: Event) { x.archId == "" || e.archId == "" || e.archId == x.archId }

  lemma {:induction false} LinkMeans(p: Primitives, x: Export, i: nat)
    requires i < |x.events|
    ensures LinkHolds(p, x, i) <==> OfExport(x, x.events[i]) && Follows(x, i) && HashesRight(p, x.events[i])
  {
    var e := x.events[i];
    HashIsOfText(p, e, e.payloadHash);
    assert i == 0 && Follows(x, i) ==> e.prevHash == Genesis();
  }

  /** The chain line passes exactly when the export has events, as many as it says, and each follows the one
      before, belongs to the export and hashes right. */
  lemma {:induction false} ChainPassIff(p: Primitives, x: Export, intact: nat)
    requires x.events != [] && FirstBreak(p, x, |x.events|, intact)
    ensures Check("chain", Pass) in ReportOf(x, intact == |x.events|) <==>
            (x.count == None || x.count == Some(|x.events|))
            && forall i | 0 <= i < |x.events| :: OfExport(x, x.events[i]) && Follows(x, i) && HashesRight(p, x.events[i])
  {
    ReportIsRight(p, x, intact);
    forall i | 0 <= i < |x.events|
      ensures LinkHolds(p, x, i) <==> OfExport(x, x.events[i]) && Follows(x, i) && HashesRight(p, x.events[i])
    {
      LinkMeans(p, x, i);
    }
  }

  /** The lines of a chain that does not verify: one failure for a wrong count, one for a break. */
  lemma {:induction false} ChainFails(x: Export, verifies: bool)
    requires x.events != []
    ensures var lines := ReportOf(x, verifies);
            var short := x.count.Some? && x.count.value != |x.events|;
            |lines| == 2 + (if short && !verifies then 2 else 1)
            && (forall k | 0 <= k < |lines| - 2 :: lines[k] == Check("chain", if short || !verifies then Fail else Pass))
            && lines[|lines| - 2].name == "head"
            && lines[|lines| - 2].status == (if x.headHash == "" then NotChecked
                                             else if x.headHash == x.events[|x.events| - 1].hash && verifies && !short then Pass else Fail)
  {}

  /** Two chains that verify and share a hash agree, event by event up to it, on the canonical payload, the version
      and the instant to the microsecond, and, where neither type nor actor of one holds a bar, on type and actor. */
  lemma {:induction false} SharedHashAgrees(p: Primitives, x: Export, y: Export, i: nat, j: nat, k: nat)
    requires Faithful(p) && Verifies(p, x) && Verifies(p, y) && i < |x.events| && j < |y.events|
    requires x.events[i].hash == y.events[j].hash && k <= i
    ensures i == j && k < |y.events|
    ensures var a, b := x.events[k], y.events[k];
            p.canonical(a.payload) == p.canonical(b.payload) && a.version == b.version
            && a.ts - a.ts % 1000 == b.ts - b.ts % 1000 && a.hash == b.hash
            && a.typ + "|" + a.actor == b.typ + "|" + b.actor
            && ('|' !in a.typ + a.actor || '|' !in b.typ + b.actor ==> a.typ == b.typ && a.actor == b.actor)
  {
    TamperEvidence(p, x, y, |x.events|, |y.events|, i, j);
    var a, b := x.events[k], y.events[k];
    assert EventsAgree(p, a, b);
    assert "|" == [SEPARATOR];
    assert '|' !in a.typ + a.actor ==> Plain(a);
    assert '|' !in b.typ + b.actor ==> Plain(b);
  }

  // ---- the marks ---------------------------------------------------------------------------------

  /** The receipts that count: those without a status and those whose status is ok. */
  predicate Counts(a: Receipt) { a.status == "" || a.status == "ok" }

  lemma {:induction false} OkAnchorsCount(x: Export, a: Receipt)
    ensures a in OkAnchors(x.anchors) <==> a in x.anchors && Counts(a)
  {
    OkAnchorsAre(x.anchors);
  }

  /** The mark names the receipt; a null mark names none. */
  predicate Names(m: Mark, id: string) { m == Named(id) || (m == Null && id == "") }

  /** a is the receipt that counts of the nearest head at or after the seq, no other being as near. */
  predicate Covers(x: Export, a: Receipt, q: int) {
    a in x.anchors && Counts(a) && a.headSeq >= q
    && forall b | b in x.anchors && Counts(b) && b.headSeq >= q && b != a :: b.headSeq > a.headSeq
  }

  /** When the marks pass, every event under a receipt that counts names the nearest one, and one under none names
      none; an absent or unreadable mark never passes. */
  lemma {:induction false} MarksMean(x: Export, i: nat, a: Receipt)
    requires MarksStatus(x) == Pass && i < |x.events|
    ensures x.events[i].seqNo.Some? && !x.events[i].anchoredBy.Absent? && !x.events[i].anchoredBy.Malformed?
    ensures Covers(x, a, x.events[i].seqNo.value) ==> Names(x.events[i].anchoredBy, a.id)
    ensures (forall b | b in x.anchors && Counts(b) :: b.headSeq < x.events[i].seqNo.value) ==> Names(x.events[i].anchoredBy, "")
  {
    MarksPassIff(x);
    var e := x.events[i];
    assert e.seqNo.Some? && MarkedFirst(x, e);
    var q := e.seqNo.value;
    if Covers(x, a, q) {
      CoveredIffFirst(x, q);
      var k: nat :| First(OkAnchors(x.anchors), q, k) && MarkId(e.anchoredBy) == Some(OkAnchors(x.anchors)[k].id);
      FirstIsNearest(x, q, k);
      assert OkAnchors(x.anchors)[k] == a;
    }
  }

  /** And marks that name so pass: each event with a seq names the nearest receipt that counts, or none under none. */
  lemma {:induction false} NamedMarksPass(x: Export)
    requires exists e :: e in x.events && e.anchoredBy != Absent
    requires forall e | e in x.events :: e.seqNo.Some? && NamesNearest(x, e)
    ensures MarksStatus(x) == Pass
  {
    var e :| e in x.events && e.anchoredBy != Absent;
    var j :| 0 <= j < |x.events| && x.events[j] == e;
    assert Marked(x);
    forall i | 0 <= i < |x.events| ensures x.events[i].seqNo.Some? && MarkedFirst(x, x.events[i]) {
      assert x.events[i] in x.events;
      NearestIsFirst(x, x.events[i]);
    }
    MarksPassIff(x);
  }

  ghost predicate NamesNearest(x: Export, e: Event)
    requires e.seqNo.Some?
  {
    (exists a :: Covers(x, a, e.seqNo.value) && Names(e.anchoredBy, a.id))
    || (Names(e.anchoredBy, "") && forall b | b in x.anchors && Counts(b) :: b.headSeq < e.seqNo.value)
  }

  lemma {:induction false} NearestIsFirst(x: Export, e: Event)
    requires e.seqNo.Some? && NamesNearest(x, e)
    ensures MarkedFirst(x, e)
  {
    var q := e.seqNo.value;
    if a :| Covers(x, a, q) && Names(e.anchoredBy, a.id) {
      CoveredIffFirst(x, q);
      var k: nat :| First(OkAnchors(x.anchors), q, k);
      FirstIsNearest(x, q, k);
      assert OkAnchors(x.anchors)[k] == a;
    }
  }

  /** The marks are not checked exactly when no event has one or some event has no seq. */
  lemma {:induction false} MarksUnchecked(x: Export)
    ensures MarksStatus(x) == NotChecked <==>
            (forall e | e in x.events :: e.anchoredBy == Absent) || exists e :: e in x.events && e.seqNo == None
    ensures MarksStatus(x) != Info
  {
    if Marked(x) {
      var i :| 0 <= i < |x.events| && x.events[i].anchoredBy != Absent;
      assert x.events[i] in x.events;
    }
    if !AllSeqs(x.events, |x.events|) {
      var i :| 0 <= i < |x.events| && x.events[i].seqNo.None?;
      assert x.events[i] in x.events;
    }
  }

  // ---- where a receipt sits ----------------------------------------------------------------------

  /** Event i is the last with the receipt's seq where every event has one, and with its event id otherwise; it has
      that id and hashes to the receipt's head. */
  predicate SitsAt(p: Primitives, x: Export, a: Receipt, i: nat) {
    i < |x.events| && x.events[i].id == a.headEventId
    && (if forall e | e in x.events :: e.seqNo.Some?
        then x.events[i].seqNo == Some(a.headSeq) && forall j | i < j < |x.events| :: x.events[j].seqNo != Some(a.headSeq)
        else forall j | i < j < |x.events| :: x.events[j].id != a.headEventId)
    && a.headHash == p.hash(Hashed(p, x.events[i], HashOf(p, x.events[i].payload)))
  }

  function HashOf(p: Primitives, payload: string): string {
    var c := p.canonical(payload);
    if c.Some? then p.hash(c.value) else ""
  }

  lemma {:induction false} SitedMeans(p: Primitives, x: Export, a: Receipt, i: nat)
    ensures Sited(p, x, a, i) <==> SitsAt(p, x, a, i)
  {
    LastSeqFound(x.events, a.headSeq);
    LastIdFound(x.events, a.headEventId);
    SeqsSaid(x.events);
    if i < |x.events| {
      HashIsOfText(p, x.events[i], HashOf(p, x.events[i].payload));
    }
  }

  lemma SeqsSaid(events: seq<Event>)
    ensures AllSeqs(events, |events|) <==> forall e | e in events :: e.seqNo.Some?
  {
    if !AllSeqs(events, |events|) {
      var i :| 0 <= i < |events| && events[i].seqNo.None?;
      assert events[i] in events;
    }
  }

  /** The event whose id the receipt gives is the last of that id, comes later, is a chain_anchored event, and its
      payload records the receipt's head and, where the receipt has one, its digest. */
  predicate RecordedAt(t: Trust, x: Export, a: Receipt, i: nat, j: nat) {
    i < j < |x.events| && x.events[j].id == a.eventId && (forall k | j < k < |x.events| :: x.events[k].id != a.eventId)
    && x.events[j].typ == "chain_anchored"
    && t.record(x.events[j].payload).Some?
    && t.record(x.events[j].payload).value.headHash == a.headHash
    && (a.receiptSHA256 != "" ==> t.record(x.events[j].payload).value.receiptSHA256 == a.receiptSHA256)
  }

  lemma {:induction false} RecordedMeans(t: Trust, x: Export, a: Receipt, i: nat, offline: bool)
    ensures Recorded(t, x, a, i, offline) <==> offline || a.eventId == "" || exists j: nat :: RecordedAt(t, x, a, i, j)
  {
    LastIdFound(x.events, a.eventId);
    if j: nat :| RecordedAt(t, x, a, i, j) {
      assert x.events[j].id == a.eventId;
    }
    if !offline && a.eventId != "" && Recorded(t, x, a, i, offline) {
      assert RecordedAt(t, x, a, i, LastWithId(x.events, a.eventId).value);
    }
  }

  // ---- what a passing receipt proves -------------------------------------------------------------

  /** The bytes of the token: the receipt's own, or the file beside it. */
  predicate TokenIs(t: Trust, a: Receipt, token: string) {
    if a.token != "" then token == a.token else t.member("anchors/" + a.id + ".tsr") == Bytes(token)
  }

  /** The certificates: the receipt's own, or those of the file beside it, none where there is no file. */
  predicate CertificatesAre(t: Trust, a: Receipt, certs: string) {
    if a.certChain != "" then certs == a.certChain
    else match t.member("anchors/" + a.id + ".certs.pem")
         case Missing => certs == ""
         case Unreadable => false
         case Bytes(data) => t.certificates(data) == Some(certs)
  }

  /** The token signs the head at the instant the receipt states, to the microsecond, under a trusted root, by an
      authority that is valid or only expired, and its digest is the one recorded. */
  predicate Proves(t: Trust, a: Receipt, sha: string, at: int, token: string, certs: string) {
    t.rooted && TokenIs(t, a, token) && CertificatesAre(t, a, certs) && t.verify(token, certs, a.headHash) == Some(at)
    && (sha == "" || t.sha(token) == sha) && !t.validity(token, certs).Invalid?
    && (a.signedAt.Some? ==> a.signedAt.value - a.signedAt.value % 1000 == at - at % 1000)
  }

  /** A receipt that passes its own checks sits on an event, is recorded where it must be, and its token proves the
      head; it counts as valid today exactly when the authority is. */
  lemma {:induction false} PassMeans(p: Primitives, t: Trust, x: Export, a: Receipt, offline: bool, o: Outcome)
    returns (token: string, certs: string, sha: string)
    requires Establishes(p, t, x, a, offline, o) && o.status == Pass
    ensures o.headIdx >= 0 && SitsAt(p, x, a, o.headIdx)
    ensures offline || a.eventId == "" || exists j: nat :: RecordedAt(t, x, a, o.headIdx, j)
    ensures Proves(t, a, sha, o.signedAt, token, certs) && (a.receiptSHA256 != "" ==> sha == a.receiptSHA256)
    ensures forall j: nat | RecordedAt(t, x, a, o.headIdx, j) && !offline && a.eventId != "" ::
              sha == t.record(x.events[j].payload).value.receiptSHA256 || sha == a.receiptSHA256 != ""
    ensures o.validNow <==> t.validity(token, certs).ValidNow?
  {
    SitedMeans(p, x, a, o.headIdx);
    RecordedMeans(t, x, a, o.headIdx, offline);
    sha := ExpectedSHA(t, x, a, o.headIdx, offline);
    token, certs := TokenOf(t, a).data, CertificatesOf(t, a).value;
    LastIdFound(x.events, a.eventId);
  }

  /** Nothing that proves its head fails: a receipt that sits on an event, is recorded and is proved by its token
      passes or, without a trusted root, is not checked. */
  lemma {:induction false} ProvedIsNotRefused(p: Primitives, t: Trust, x: Export, a: Receipt, offline: bool, i: nat,
                                              at: int, token: string, certs: string)
    requires SitsAt(p, x, a, i) && (offline || a.eventId == "" || exists j: nat :: RecordedAt(t, x, a, i, j))
    requires Recorded(t, x, a, i, offline) ==> Proves(t, a, ExpectedSHA(t, x, a, i, offline), at, token, certs)
    ensures !Refused(p, t, x, a, offline)
  {
    SitedMeans(p, x, a, i);
    RecordedMeans(t, x, a, i, offline);
    assert LongTerm.Placed(p, t, x, a, offline, i);
    assert Signs(t, a, ExpectedSHA(t, x, a, i, offline), at);
  }

  /** And what does not prove its head fails: a receipt that sits nowhere or is not recorded, and one whose token is
      there and signs nothing, or signs it under a root the authority does not chain to. */
  lemma {:induction false} UnprovedIsRefused(p: Primitives, t: Trust, x: Export, a: Receipt, offline: bool)
    requires forall i: nat | SitsAt(p, x, a, i) && (offline || a.eventId == "" || exists j: nat :: RecordedAt(t, x, a, i, j)) ::
               (a.token != "" || !t.member("anchors/" + a.id + ".tsr").Missing?)
               && forall token, certs, at | TokenIs(t, a, token) && CertificatesAre(t, a, certs)
                                            && t.verify(token, certs, a.headHash) == Some(at) ::
                    t.rooted && t.validity(token, certs).Invalid?
    ensures Refused(p, t, x, a, offline)
  {
    forall i: nat | i < |x.events| && LongTerm.Placed(p, t, x, a, offline, i)
      ensures TokenRefused(t, a, ExpectedSHA(t, x, a, i, offline))
    {
      SitedMeans(p, x, a, i);
      RecordedMeans(t, x, a, i, offline);
      forall at | Signs(t, a, ExpectedSHA(t, x, a, i, offline), at) ensures t.rooted && Authority(t, a).Invalid? {
        var token, certs := TokenOf(t, a).data, CertificatesOf(t, a).value;
        assert TokenIs(t, a, token) && CertificatesAre(t, a, certs) && t.verify(token, certs, a.headHash) == Some(at);
      }
    }
  }

  /** The long-term rule: of the receipts that passed, one whose authority has expired still passes exactly when
      another that passed and is valid today was signed later over the same or a later head. */
  lemma {:induction false} ExpiredNeedsCarrier(all: seq<Outcome>, i: nat)
    requires i < |all|
    ensures SettledAll(all)[i].status == Pass <==>
            all[i].status == Pass
            && (all[i].validNow
                || exists b :: b in all && b.status == Pass && b.validNow && b.headIdx >= all[i].headIdx && b.signedAt > all[i].signedAt)
    ensures SettledAll(all)[i] == all[i] || (all[i].status == Pass && SettledAll(all)[i] == all[i].(status := Fail))
  {
    RuleIsExact(all, i);
    if b :| b in all && b.status == Pass && b.validNow && b.headIdx >= all[i].headIdx && b.signedAt > all[i].signedAt {
      assert Carries(b, all[i]);
    }
  }

  // ---- what is checked and reported --------------------------------------------------------------

  /** The receipts checked: those of the export that count, and those of the files that read and are of no other
      architecture, without an event that must record them. */
  lemma {:induction false} CheckedReceipts(x: Export, offline: seq<Loaded>, job: Job)
    ensures job in Jobs(x, offline) <==>
            (!job.offline && job.a in x.anchors && Counts(job.a))
            || (job.offline && exists l :: l in offline && l.a == job.a && !l.unusable
                                           && (l.archId == "" || x.archId == "" || l.archId == x.archId))
  {
    OwnJobsAre(OkAnchors(x.anchors), job);
    OkAnchorsCount(x, job.a);
    BesideJobsAre(x, offline, job);
  }

  lemma {:induction false} OwnJobsAre(anchors: seq<Receipt>, job: Job)
    ensures job in OwnJobs(anchors) <==> !job.offline && job.a in anchors
  {
    if anchors != [] {
      OwnJobsAre(anchors[..|anchors| - 1], job);
      assert anchors == anchors[..|anchors| - 1] + [anchors[|anchors| - 1]];
    }
  }

  lemma {:induction false} BesideJobsAre(x: Export, offline: seq<Loaded>, job: Job)
    ensures job in BesideJobs(x, offline) <==> job.offline && exists l :: l in offline && l.a == job.a && Usable(x, l)
  {
    if offline != [] {
      BesideJobsAre(x, offline[..|offline| - 1], job);
      assert offline == offline[..|offline| - 1] + [offline[|offline| - 1]];
    }
  }

  /** A file that does not read, or is of another architecture, fails. */
  lemma {:induction false} UnusableFails(x: Export, offline: seq<Loaded>)
    ensures Check("reanchor receipt", Fail) in UnusableLines(x, offline) <==>
            exists l :: l in offline && (l.unusable || (l.archId != "" && x.archId != "" && l.archId != x.archId))
    ensures forall c | c in UnusableLines(x, offline) :: c == Check("reanchor receipt", Fail)
    ensures |UnusableLines(x, offline)| + |BesideJobs(x, offline)| == |offline|
  {
    if offline != [] {
      UnusableFails(x, offline[..|offline| - 1]);
      assert offline == offline[..|offline| - 1] + [offline[|offline| - 1]];
    }
  }

  /** A chain_anchored event without a receipt that counts is reported as removed. */
  lemma {:induction false} RemovedMeans(x: Export, e: Event)
    ensures Removed(e, EventIds(OkAnchors(x.anchors))) <==>
            e.typ == "chain_anchored" && forall a | a in x.anchors && Counts(a) :: a.eventId != e.id
    ensures e in x.events && Removed(e, EventIds(OkAnchors(x.anchors))) ==>
              Check("chain_anchored record", Fail) in RemovedLines(x.events, EventIds(OkAnchors(x.anchors)))
  {
    HasReceiptIff(x, e.id);
    if e in x.events && Removed(e, EventIds(OkAnchors(x.anchors))) {
      RemovedHasLine(x.events, EventIds(OkAnchors(x.anchors)), e);
    }
  }

  lemma {:induction false} RemovedHasLine(events: seq<Event>, receipts: set<string>, e: Event)
    requires e in events && Removed(e, receipts)
    ensures Check("chain_anchored record", Fail) in RemovedLines(events, receipts)
  {
    if e != events[|events| - 1] {
      RemovedHasLine(events[..|events| - 1], receipts, e);
    }
  }

  /** The section always tells of the unanchored tail, of the anchors when no receipt counts, and of files beside the
      input when there are any; none of these lines passes or fails. */
  lemma {:induction false} ClosingMeans(x: Export, offline: seq<Loaded>)
    ensures Check("unanchored tail", Info) in ClosingLines(x, offline)
    ensures Check("anchors", Info) in ClosingLines(x, offline) <==> forall a | a in x.anchors :: !Counts(a)
    ensures Check("reanchor receipts", Info) in ClosingLines(x, offline) <==> offline != []
    ensures forall c | c in ClosingLines(x, offline) :: c.status == Info
  {
    OkAnchorsAre(x.anchors);
    assert OkAnchors(x.anchors) != [] ==> OkAnchors(x.anchors)[0] in OkAnchors(x.anchors);
    assert ClosingLines(x, offline)[|ClosingLines(x, offline)| - 1] == Check("unanchored tail", Info);
    if OkAnchors(x.anchors) == [] {
      assert ClosingLines(x, offline)[0] == Check("anchors", Info);
    }
    if offline != [] {
      assert ClosingLines(x, offline)[|ClosingLines(x, offline)| - 2] == Check("reanchor receipts", Info);
    }
  }

  /** The export's own receipts are checked first, in head order, then those of the files. */
  lemma {:induction false} OwnReceiptsFirst(x: Export, offline: seq<Loaded>, i: nat, j: nat)
    requires i < j < |Jobs(x, offline)|
    ensures Jobs(x, offline)[i].offline ==> Jobs(x, offline)[j].offline
    ensures !Jobs(x, offline)[j].offline ==> Jobs(x, offline)[i].a.headSeq <= Jobs(x, offline)[j].a.headSeq
  {
    var own := OkAnchors(x.anchors);
    OwnJobAt(own);
    OkAnchorsAre(x.anchors);
    forall k | |own| <= k < |Jobs(x, offline)| ensures Jobs(x, offline)[k].offline {
      BesideJobsAre(x, offline, BesideJobs(x, offline)[k - |own|]);
    }
  }

  lemma {:induction false} OwnJobAt(anchors: seq<Receipt>)
    ensures |OwnJobs(anchors)| == |anchors| && forall i | 0 <= i < |anchors| :: OwnJobs(anchors)[i] == Job(anchors[i], false)
  {
    if anchors != [] {
      OwnJobAt(anchors[..|anchors| - 1]);
    }
  }

  /** There is one line for each event whose receipt was removed, and each fails. */
  lemma {:induction false} RemovedCount(events: seq<Event>, receipts: set<string>)
    ensures |RemovedLines(events, receipts)| == |RemovedAt(events, receipts)|
    ensures forall c | c in RemovedLines(events, receipts) :: c == Check("chain_anchored record", Fail)
  {
    if events != [] {
      RemovedCount(events[..|events| - 1], receipts);
    }
  }
}
