/** The anchor checks (verify/anchors.go): where a receipt sits in the recomputed chain, what its token
    proves, and the long-term rule that decides receipts whose authority has expired. */
module LongTerm {
  import opened Options
  import opened Chain
  import opened Anchors

  const CHAIN_ANCHORED := "chain_anchored"

  /** What a chain_anchored payload records. */
  datatype Record = Record(headHash: string, receiptSHA256: string)

  /** A member of the input: missing, unreadable, or its bytes. */
  datatype Member = Missing | Unreadable | Bytes(data: string)

  datatype Validity = ValidNow | Expired(at: int) | Invalid

  /** The trust inputs and what the check calls without opening: SHA-256 in hex, payload decoding, the
      members of the input, PEM decoding, token verification (the signed instant, or nothing) and the
      authority's chain at the verification time. */
  datatype Trust = Trust(
    rooted: bool,
    sha: string -> string,
    record: string -> Option<Record>,
    member: string -> Member,
    certificates: string -> Option<string>,
    verify: (string, string, string) -> Option<int>,
    validity: (string, string) -> Validity)

  // ---- where a receipt sits ----------------------------------------------------------------------

  function LastWithSeq(events: seq<Event>, q: int): Option<nat> {
    if events == [] then None
    else if events[|events| - 1].seqNo == Some(q) then Some(|events| - 1)
    else LastWithSeq(events[..|events| - 1], q)
  }

  function LastWithId(events: seq<Event>, id: string): Option<nat> {
    if events == [] then None
    else if events[|events| - 1].id == id then Some(|events| - 1)
    else LastWithId(events[..|events| - 1], id)
  }

  lemma {:induction false} LastSeqFound(events: seq<Event>, q: int)
    ensures LastWithSeq(events, q).Some? ==> LastSeq(events, |events|, q, LastWithSeq(events, q).value)
    ensures LastWithSeq(events, q).None? ==> forall i | 0 <= i < |events| :: events[i].seqNo != Some(q)
  {
    if events != [] && events[|events| - 1].seqNo != Some(q) {
      LastSeqFound(events[..|events| - 1], q);
    }
  }

  lemma {:induction false} LastIdFound(events: seq<Event>, id: string)
    ensures LastWithId(events, id).Some? ==> LastId(events, |events|, id, LastWithId(events, id).value)
    ensures LastWithId(events, id).None? ==> forall i | 0 <= i < |events| :: events[i].id != id
  {
    if events != [] && events[|events| - 1].id != id {
      LastIdFound(events[..|events| - 1], id);
    }
  }

  lemma {:induction false} SeqIndexFinds(events: seq<Event>, m: map<int, nat>, q: int)
    requires SeqIndex(events, |events|, m)
    ensures LastWithSeq(events, q) == if q in m then Some(m[q]) else None
  {
    LastSeqFound(events, q);
    assert SeqEntry(events, |events|, m, q);
    if LastWithSeq(events, q).Some? {
      assert HasSeq(events, LastWithSeq(events, q).value, m);
    }
  }

  lemma {:induction false} IdIndexFinds(events: seq<Event>, m: map<string, nat>, id: string)
    requires IdIndex(events, |events|, m)
    ensures LastWithId(events, id) == if id in m then Some(m[id]) else None
  {
    LastIdFound(events, id);
    assert IdEntry(events, |events|, m, id);
    if LastWithId(events, id).Some? {
      assert HasId(events, LastWithId(events, id).value, m);
    }
  }

  /** The event a receipt names: by seq when every event has one, else by id. */
  function Named(x: Export, a: Receipt): (r: Option<nat>)
    ensures r.Some? ==> r.value < |x.events|
  {
    LastSeqFound(x.events, a.headSeq);
    LastIdFound(x.events, a.headEventId);
    if AllSeqs(x.events, |x.events|) then LastWithSeq(x.events, a.headSeq) else LastWithId(x.events, a.headEventId)
  }

  /** The receipt names event i, and that event recomputes to the anchored head. */
  predicate Sited(p: Primitives, x: Export, a: Receipt, i: nat) {
    Named(x, a) == Some(i) && x.events[i].id == a.headEventId && Recomputed(p, x.events[i]) == a.headHash
  }

  /** eventAt and the three position checks. */
  method Site(st: ChainState, a: Receipt, p: Primitives) returns (at: int)
    requires st.Scanned(p, |st.exp.events|)
    ensures at >= 0 ==> Sited(p, st.exp, a, at)
    ensures at < 0 ==> forall i :: !Sited(p, st.exp, a, i)
  {
    SeqIndexFinds(st.exp.events, st.bySeq, a.headSeq);
    IdIndexFinds(st.exp.events, st.byID, a.headEventId);
    var i := st.EventAt(a);
    assert i == Named(st.exp, a);
    if i.None? {
      return -1;
    } else if st.exp.events[i.value].id != a.headEventId {
      return -1;
    } else if st.recomputed[i.value] != a.headHash {
      return -1;
    }
    return i.value;
  }

  // ---- its chain_anchored record -----------------------------------------------------------------

  /** The event records the receipt: a chain_anchored event over the same head and the same receipt. */
  predicate Records(t: Trust, e: Event, a: Receipt) {
    e.typ == CHAIN_ANCHORED
    && t.record(e.payload).Some?
    && t.record(e.payload).value.headHash == a.headHash
    && (a.receiptSHA256 != "" ==> t.record(e.payload).value.receiptSHA256 == a.receiptSHA256)
  }

  /** The receipt needs no record, or its record is a later event of the chain. */
  predicate Recorded(t: Trust, x: Export, a: Receipt, i: nat, offline: bool) {
    offline || a.eventId == "" ||
    (LastIdFound(x.events, a.eventId);
     LastWithId(x.events, a.eventId).Some? && LastWithId(x.events, a.eventId).value > i
     && Records(t, x.events[LastWithId(x.events, a.eventId).value], a))
  }

  /** The receipt hash the token must have: the receipt's own, else the record's. */
  function ExpectedSHA(t: Trust, x: Export, a: Receipt, i: nat, offline: bool): string
    requires Recorded(t, x, a, i, offline)
  {
    if a.receiptSHA256 != "" || offline || a.eventId == "" then a.receiptSHA256
    else LastIdFound(x.events, a.eventId); t.record(x.events[LastWithId(x.events, a.eventId).value].payload).value.receiptSHA256
  }

  method CheckRecord(st: ChainState, a: Receipt, p: Primitives, t: Trust, i: nat, offline: bool) returns (sha: Option<string>)
    requires st.Scanned(p, |st.exp.events|)
    ensures sha.Some? <==> Recorded(t, st.exp, a, i, offline)
    ensures sha.Some? ==> sha.value == ExpectedSHA(t, st.exp, a, i, offline)
  {
    if offline || a.eventId == "" {
      return Some(a.receiptSHA256);
    }
    IdIndexFinds(st.exp.events, st.byID, a.eventId);
    LastIdFound(st.exp.events, a.eventId);
    if a.eventId !in st.byID {
      return None;
    }
    var j := st.byID[a.eventId];
    var e := st.exp.events[j];
    var rec := t.record(e.payload);
    if e.typ != CHAIN_ANCHORED || j <= i || rec.None? || rec.value.headHash != a.headHash
      || (a.receiptSHA256 != "" && rec.value.receiptSHA256 != a.receiptSHA256)
    {
      return None;
    }
    return Some(if a.receiptSHA256 == "" then rec.value.receiptSHA256 else a.receiptSHA256);
  }

  // ---- its token ---------------------------------------------------------------------------------

  function TokenOf(t: Trust, a: Receipt): Member {
    if a.token != "" then Bytes(a.token) else t.member("anchors/" + a.id + ".tsr")
  }

  function CertificatesOf(t: Trust, a: Receipt): Option<string> {
    if a.certChain != "" then Some(a.certChain)
    else match t.member("anchors/" + a.id + ".certs.pem")
         case Missing => Some("")
         case Unreadable => None
         case Bytes(data) => t.certificates(data)
  }

  /** The token signs the anchored head at the instant the receipt states, and its bytes are the receipt. */
  predicate Signs(t: Trust, a: Receipt, sha: string, at: int) {
    TokenOf(t, a).Bytes?
    && CertificatesOf(t, a).Some?
    && (sha != "" ==> t.sha(TokenOf(t, a).data) == sha)
    && t.verify(TokenOf(t, a).data, CertificatesOf(t, a).value, a.headHash) == Some(at)
    && (a.signedAt.Some? ==> Micro(a.signedAt.value) == Micro(at))
  }

  datatype TokenCheck = NoToken | BadToken | Signed(at: int, token: string, certificates: string)

  method CheckToken(t: Trust, a: Receipt, sha: string) returns (c: TokenCheck)
    ensures c.NoToken? <==> TokenOf(t, a).Missing?
    ensures c.Signed? <==> exists at :: Signs(t, a, sha, at)
    ensures c.Signed? ==> Signs(t, a, sha, c.at) && c.token == TokenOf(t, a).data && c.certificates == CertificatesOf(t, a).value
  {
    var token := a.token;
    if |token| == 0 {
      var m := t.member("anchors/" + a.id + ".tsr");
      match m
      case Unreadable => return BadToken;
      case Missing => return NoToken;
      case Bytes(data) => token := data;
    }
    var certs := a.certChain;
    if |certs| == 0 {
      var m := t.member("anchors/" + a.id + ".certs.pem");
      match m
      case Unreadable => return BadToken;
      case Missing =>
      case Bytes(data) =>
        var der := t.certificates(data);
        if der.None? {
          return BadToken;
        }
        certs := der.value;
    }
    if sha != "" && t.sha(token) != sha {
      return BadToken;
    }
    var at := t.verify(token, certs, a.headHash);
    if at.None? || (a.signedAt.Some? && Micro(at.value) != Micro(a.signedAt.value)) {
      return BadToken;
    }
    assert Signs(t, a, sha, at.value);
    return Signed(at.value, token, certs);
  }

  // ---- one receipt -------------------------------------------------------------------------------

  /** A receipt after its checks. */
  class AnchorResult {
    const a: Receipt
    const offline: bool
    var headIdx: int
    var status: Status
    var signedAt: int
    var validNow: bool
    var expiredAt: int

    constructor (a: Receipt, offline: bool)
      ensures this.a == a && this.offline == offline && headIdx == -1 && status == Fail
    {
      this.a, this.offline := a, offline;
      headIdx, status, signedAt, validNow, expiredAt := -1, Fail, 0, false, 0;
    }

    function View(): Outcome
      reads this
    {
      Outcome(headIdx, status, signedAt, validNow)
    }
  }

  datatype Outcome = Outcome(headIdx: int, status: Status, signedAt: int, validNow: bool)

  /** The position and the record of the receipt match the recomputed chain. */
  predicate Placed(p: Primitives, t: Trust, x: Export, a: Receipt, offline: bool, i: nat) {
    Sited(p, x, a, i) && Recorded(t, x, a, i, offline)
  }

  /** What a checked receipt establishes: a pass means the receipt is placed, its token signs the head
      under a trusted root and the authority is valid or expired; anything but a failure means it is
      placed. */
  predicate Establishes(p: Primitives, t: Trust, x: Export, a: Receipt, offline: bool, o: Outcome) {
    o.status != Info
    && (o.status != Fail ==> o.headIdx >= 0 && Placed(p, t, x, a, offline, o.headIdx))
    && (o.status == Pass ==>
          t.rooted && Signs(t, a, ExpectedSHA(t, x, a, o.headIdx, offline), o.signedAt)
          && !Authority(t, a).Invalid? && o.validNow == Authority(t, a).ValidNow?)
    && (o.status == NotChecked ==>
          TokenOf(t, a).Missing? || (!t.rooted && Signs(t, a, ExpectedSHA(t, x, a, o.headIdx, offline), o.signedAt)))
  }

  /** The token is there and does not prove the head under the trust inputs. */
  ghost predicate TokenRefused(t: Trust, a: Receipt, sha: string) {
    !TokenOf(t, a).Missing? && forall at | Signs(t, a, sha, at) :: t.rooted && Authority(t, a).Invalid?
  }

  /** Nothing less fails: a placed receipt whose token signs the head is not refused. */
  ghost predicate Refused(p: Primitives, t: Trust, x: Export, a: Receipt, offline: bool) {
    forall i: nat | i < |x.events| && Placed(p, t, x, a, offline, i) ::
      TokenRefused(t, a, ExpectedSHA(t, x, a, i, offline))
  }

  function Authority(t: Trust, a: Receipt): Validity {
    if TokenOf(t, a).Bytes? && CertificatesOf(t, a).Some?
    then t.validity(TokenOf(t, a).data, CertificatesOf(t, a).value)
    else Invalid
  }

  /** A placed receipt: what its token adds. */
  method Judge(res: AnchorResult, t: Trust, sha: string)
    requires res.status == Fail
    modifies res
    ensures res.headIdx == old(res.headIdx)
    ensures res.status == Pass ==> t.rooted && Signs(t, res.a, sha, res.signedAt)
                                   && !Authority(t, res.a).Invalid? && res.validNow == Authority(t, res.a).ValidNow?
    ensures res.status == NotChecked ==> TokenOf(t, res.a).Missing? || (!t.rooted && Signs(t, res.a, sha, res.signedAt))
    ensures res.status == Fail <==> TokenRefused(t, res.a, sha)
    ensures res.status != Info
  {
    var c := CheckToken(t, res.a, sha);
    match c
    case NoToken =>
      res.status := NotChecked;
    case BadToken =>
    case Signed(at, token, certs) =>
      res.signedAt := at;
      if !t.rooted {
        res.status := NotChecked;
        return;
      }
      var v := t.validity(token, certs);
      if v.Invalid? {
        return;
      }
      res.validNow := v.ValidNow?;
      res.expiredAt := if v.Expired? then v.at else 0;
      res.status := Pass;
  }

  method CheckAnchor(st: ChainState, a: Receipt, p: Primitives, t: Trust, offline: bool) returns (res: AnchorResult)
    requires st.Scanned(p, |st.exp.events|)
    ensures fresh(res) && res.a == a && res.offline == offline
    ensures Establishes(p, t, st.exp, a, offline, res.View())
    ensures res.status == Fail <==> Refused(p, t, st.exp, a, offline)
  {
    res := new AnchorResult(a, offline);
    var i := Site(st, a, p);
    if i < 0 {
      return;
    }
    res.headIdx := i;
    var sha := CheckRecord(st, a, p, t, i, offline);
    if sha.Some? {
      Judge(res, t, sha.value);
    }
  }

  // ---- the long-term rule ------------------------------------------------------------------------

  /** b carries a: passing, valid today, signed later, over the same or a later head. */
  predicate Carries(b: Outcome, a: Outcome) {
    b.status == Pass && b.validNow && b.headIdx >= a.headIdx && b.signedAt > a.signedAt
  }

  predicate Carried(o: Outcome, all: seq<Outcome>) {
    exists b :: b in all && Carries(b, o)
  }

  /** The rule: a passing receipt whose authority has expired fails unless another carries it. */
  function Settled(o: Outcome, all: seq<Outcome>): Outcome {
    if o.status == Pass && !o.validNow && !Carried(o, all) then o.(status := Fail) else o
  }

  function SettledAll(all: seq<Outcome>): (r: seq<Outcome>)
    ensures |r| == |all| && forall i | 0 <= i < |all| :: r[i] == Settled(all[i], all)
  {
    seq(|all|, i requires 0 <= i < |all| => Settled(all[i], all))
  }

  function Views(results: seq<AnchorResult>): (r: seq<Outcome>)
    reads results
    ensures |r| == |results| && forall i | 0 <= i < |results| :: r[i] == results[i].View()
  {
    if results == [] then [] else Views(results[..|results| - 1]) + [results[|results| - 1].View()]
  }

  predicate Distinct(results: seq<AnchorResult>) {
    forall i, j | 0 <= i < j < |results| :: results[i] != results[j]
  }

  method FindCarrier(results: seq<AnchorResult>, res: AnchorResult) returns (later: AnchorResult?)
    requires res.status == Pass && !res.validNow
    ensures later != null <==> exists k :: 0 <= k < |results| && Carries(results[k].View(), res.View())
    ensures later != null ==> later in results && Carries(later.View(), res.View())
  {
    for k := 0 to |results|
      invariant forall j | 0 <= j < k :: !Carries(results[j].View(), res.View())
    {
      var b := results[k];
      if b != res && b.status == Pass && b.validNow && b.headIdx >= res.headIdx && b.signedAt > res.signedAt {
        return b;
      }
    }
    return null;
  }

  /** applyLongTerm changes the statuses in place while it reads them; the result is as if every status
      were decided from the list before the first change. */
  method ApplyLongTerm(results: seq<AnchorResult>)
    requires Distinct(results)
    modifies results
    ensures Views(results) == SettledAll(old(Views(results)))
  {
    ghost var was := Views(results);
    for i := 0 to |results|
      invariant forall j | 0 <= j < i :: results[j].View() == Settled(was[j], was)
      invariant forall j | i <= j < |results| :: results[j].View() == was[j]
    {
      var res := results[i];
      if res.status == Pass && !res.validNow {
        var later := FindCarrier(results, res);
        CarrierStays(Views(results), was, res.View());
        if later == null {
          res.status := Fail;
        }
      }
    }
  }

  /** A carrier's status never changes, so a half-settled list carries the same receipts. */
  lemma {:induction false} CarrierStays(now: seq<Outcome>, was: seq<Outcome>, o: Outcome)
    requires |now| == |was| && forall j | 0 <= j < |was| :: now[j] == was[j] || now[j] == Settled(was[j], was)
    ensures (exists k :: 0 <= k < |now| && Carries(now[k], o)) <==> Carried(o, was)
  {
    forall k | 0 <= k < |was| ensures Carries(now[k], o) <==> Carries(was[k], o) {}
    if Carried(o, was) {
      var b :| b in was && Carries(b, o);
      var k :| 0 <= k < |was| && was[k] == b;
      assert Carries(now[k], o);
    }
    if k :| 0 <= k < |now| && Carries(now[k], o) {
      assert was[k] in was;
    }
  }

  /** After the rule every passing receipt is valid today or carried by one that passes and is. */
  lemma {:induction false} PassingIsCarried(all: seq<Outcome>, o: Outcome)
    requires o in SettledAll(all) && o.status == Pass
    ensures o.validNow || Carried(o, SettledAll(all))
  {
    var i :| 0 <= i < |all| && SettledAll(all)[i] == o;
    if !o.validNow {
      CarrierStays(SettledAll(all), all, o);
      var k :| 0 <= k < |all| && Carries(SettledAll(all)[k], o);
      assert SettledAll(all)[k] in SettledAll(all);
    }
  }

  /** The rule only fails expired receipts without a carrier: it never passes one, and a carried or
      valid one keeps its status. */
  lemma {:induction false} RuleIsExact(all: seq<Outcome>, i: nat)
    requires i < |all|
    ensures SettledAll(all)[i].status == Pass <==> all[i].status == Pass && (all[i].validNow || Carried(all[i], all))
    ensures all[i].status != Pass ==> SettledAll(all)[i] == all[i]
    ensures SettledAll(SettledAll(all)) == SettledAll(all)
  {
    var s := SettledAll(all);
    forall k | 0 <= k < |all| ensures Settled(s[k], s) == s[k] {
      CarrierStays(s, all, all[k]);
      if Carried(all[k], all) {
        var m :| 0 <= m < |s| && Carries(s[m], all[k]);
        assert s[m] in s;
      }
    }
  }

  /** The statuses do not depend on the order or the repetition of the receipts. */
  lemma {:induction false} OrderDoesNotMatter(xs: seq<Outcome>, ys: seq<Outcome>, o: Outcome)
    requires forall b :: b in xs <==> b in ys
    ensures Settled(o, xs) == Settled(o, ys)
  {}

  // ---- the unanchored tail -----------------------------------------------------------------------

  /** The last placed receipt that did not fail. */
  method LastAnchor(results: seq<AnchorResult>) returns (last: AnchorResult?)
    ensures last == null <==> forall r | r in results :: r.status == Fail || r.headIdx < 0
    ensures last != null ==> last in results && last.status != Fail && last.headIdx >= 0
    ensures last != null ==> forall r | r in results && r.status != Fail :: r.headIdx <= last.headIdx
  {
    last := null;
    for i := 0 to |results|
      invariant last == null <==> forall j | 0 <= j < i :: results[j].status == Fail || results[j].headIdx < 0
      invariant last != null ==> last in results && last.status != Fail && last.headIdx >= 0
      invariant last != null ==> forall j | 0 <= j < i && results[j].status != Fail :: results[j].headIdx <= last.headIdx
    {
      var res := results[i];
      if res.status != Fail && res.headIdx >= 0 && (last == null || res.headIdx > last.headIdx) {
        last := res;
      }
    }
  }

  // ---- verifyAnchors -----------------------------------------------------------------------------

  /** A receipt file beside the input, or one that did not read. */
  datatype Loaded = Loaded(archId: string, a: Receipt, unusable: bool)

  predicate Usable(x: Export, l: Loaded) {
    !l.unusable && !(l.archId != "" && x.archId != "" && l.archId != x.archId)
  }

  /** A receipt to check: one of the export's, or one beside the input. */
  datatype Job = Job(a: Receipt, offline: bool)

  /** The export's receipts, in order. */
  function OwnJobs(anchors: seq<Receipt>): seq<Job> {
    if anchors == [] then [] else OwnJobs(anchors[..|anchors| - 1]) + [Job(anchors[|anchors| - 1], false)]
  }

  /** The receipts of the usable files, in order. */
  function BesideJobs(x: Export, offline: seq<Loaded>): seq<Job> {
    if offline == [] then []
    else BesideJobs(x, offline[..|offline| - 1])
         + if Usable(x, offline[|offline| - 1]) then [Job(offline[|offline| - 1].a, true)] else []
  }

  /** All receipts to check: the ok ones of the export in head order, then the usable files. */
  function Jobs(x: Export, offline: seq<Loaded>): seq<Job> {
    OwnJobs(OkAnchors(x.anchors)) + BesideJobs(x, offline)
  }

  /** The lines of the files that are not checked. */
  function UnusableLines(x: Export, offline: seq<Loaded>): seq<Check> {
    if offline == [] then []
    else UnusableLines(x, offline[..|offline| - 1]) + NextLine(x, offline[|offline| - 1])
  }

  /** The outcome is what the checks of the receipt make it: no more than it establishes, and a failure
      only when the receipt is refused. */
  ghost predicate Judged(p: Primitives, t: Trust, x: Export, job: Job, o: Outcome) {
    Establishes(p, t, x, job.a, job.offline, o) && (o.status == Fail <==> Refused(p, t, x, job.a, job.offline))
  }

  ghost predicate JudgedAll(p: Primitives, t: Trust, x: Export, jobs: seq<Job>, outs: seq<Outcome>) {
    |outs| == |jobs| && forall i | 0 <= i < |jobs| :: Judged(p, t, x, jobs[i], outs[i])
  }

  /** Result i is that of job i. */
  predicate ResultsOf(results: seq<AnchorResult>, jobs: seq<Job>) {
    |results| == |jobs| && forall i | 0 <= i < |jobs| :: results[i].a == jobs[i].a && results[i].offline == jobs[i].offline
  }

  /** The receipt passes its own checks and is valid today or carried by another of the list. */
  ghost predicate Stands(p: Primitives, t: Trust, x: Export, jobs: seq<Job>, outs: seq<Outcome>, i: nat)
    requires i < |jobs| == |outs|
  {
    outs[i].status == Pass && outs[i].headIdx >= 0 && Placed(p, t, x, jobs[i].a, jobs[i].offline, outs[i].headIdx)
    && (outs[i].validNow || exists k :: 0 <= k < |outs| && StandsFor(p, t, x, jobs, outs, k, outs[i]))
  }

  predicate StandsFor(p: Primitives, t: Trust, x: Export, jobs: seq<Job>, outs: seq<Outcome>, k: nat, o: Outcome)
    requires k < |jobs| == |outs|
  {
    Carries(outs[k], o) && outs[k].headIdx >= 0 && Placed(p, t, x, jobs[k].a, jobs[k].offline, outs[k].headIdx)
  }

  ghost predicate AllStand(p: Primitives, t: Trust, x: Export, jobs: seq<Job>, outs: seq<Outcome>) {
    |jobs| == |outs| && forall i | 0 <= i < |outs| && outs[i].status == Pass :: Stands(p, t, x, jobs, outs, i)
  }

  lemma {:induction false} JudgedIsPlaced(p: Primitives, t: Trust, x: Export, job: Job, o: Outcome)
    requires Judged(p, t, x, job, o) && o.status != Fail
    ensures o.headIdx >= 0 && Placed(p, t, x, job.a, job.offline, o.headIdx)
  {}

  /** After the long-term rule every passing receipt stands. */
  lemma {:induction false} PassingStands(p: Primitives, t: Trust, x: Export, jobs: seq<Job>, was: seq<Outcome>)
    requires JudgedAll(p, t, x, jobs, was)
    ensures AllStand(p, t, x, jobs, SettledAll(was))
  {
    var outs := SettledAll(was);
    forall i | 0 <= i < |outs| && outs[i].status == Pass ensures Stands(p, t, x, jobs, outs, i) {
      JudgedIsPlaced(p, t, x, jobs[i], was[i]);
      if !outs[i].validNow {
        PassingIsCarried(was, outs[i]);
        var k :| 0 <= k < |outs| && Carries(outs[k], outs[i]);
        JudgedIsPlaced(p, t, x, jobs[k], was[k]);
        assert StandsFor(p, t, x, jobs, outs, k, outs[i]);
      }
    }
  }

  /** The chain_anchored events the receipts name. */
  function EventIds(anchors: seq<Receipt>): set<string> {
    if anchors == [] then {} else EventIds(anchors[..|anchors| - 1]) + {anchors[|anchors| - 1].eventId}
  }

  lemma {:induction false} EventIdsAre(anchors: seq<Receipt>, id: string)
    ensures id in EventIds(anchors) <==> exists a :: a in anchors && a.eventId == id
  {
    if anchors != [] {
      EventIdsAre(anchors[..|anchors| - 1], id);
      assert anchors == anchors[..|anchors| - 1] + [anchors[|anchors| - 1]];
    }
  }

  predicate HasReceipt(x: Export, id: string) {
    id in EventIds(OkAnchors(x.anchors))
  }

  /** How outcomes are judged; the loops need nothing more of it. */
  type Judging = (Job, Outcome) -> bool

  ghost predicate JudgesAt(judge: Judging, p: Primitives, t: Trust, x: Export, job: Job, o: Outcome) {
    judge(job, o) == Judged(p, t, x, job, o)
  }

  ghost predicate Judges(judge: Judging, p: Primitives, t: Trust, x: Export) {
    forall job, o :: JudgesAt(judge, p, t, x, job, o)
  }

  predicate AllBy(judge: Judging, jobs: seq<Job>, outs: seq<Outcome>) {
    |outs| == |jobs| && forall i | 0 <= i < |jobs| :: judge(jobs[i], outs[i])
  }

  lemma {:induction false} AllJudged(judge: Judging, p: Primitives, t: Trust, x: Export, jobs: seq<Job>, outs: seq<Outcome>)
    requires Judges(judge, p, t, x) && AllBy(judge, jobs, outs)
    ensures JudgedAll(p, t, x, jobs, outs)
  {
    forall i | 0 <= i < |jobs| ensures Judged(p, t, x, jobs[i], outs[i]) {
      assert JudgesAt(judge, p, t, x, jobs[i], outs[i]);
    }
  }

  /** An event has a receipt when an ok receipt of the export names it. */
  lemma {:induction false} HasReceiptIff(x: Export, id: string)
    ensures HasReceipt(x, id) <==> exists a :: a in x.anchors && IsOk(a) && a.eventId == id
  {
    EventIdsAre(OkAnchors(x.anchors), id);
    OkAnchorsAre(x.anchors);
  }

  ghost predicate Checked(judge: Judging, jobs: seq<Job>, results: seq<AnchorResult>)
    reads results
  {
    Distinct(results) && ResultsOf(results, jobs) && AllBy(judge, jobs, Views(results))
  }

  method CheckJudged(st: ChainState, job: Job, p: Primitives, t: Trust, ghost judge: Judging) returns (res: AnchorResult)
    requires st.Scanned(p, |st.exp.events|) && Judges(judge, p, t, st.exp)
    ensures fresh(res) && res.a == job.a && res.offline == job.offline && judge(job, res.View())
  {
    res := CheckAnchor(st, job.a, p, t, job.offline);
    assert JudgesAt(judge, p, t, st.exp, job, res.View());
  }

  /** One more receipt checked. */
  method CheckNext(st: ChainState, job: Job, p: Primitives, t: Trust, results: seq<AnchorResult>, ghost jobs: seq<Job>, ghost judge: Judging)
    returns (res: AnchorResult)
    requires st.Scanned(p, |st.exp.events|) && Judges(judge, p, t, st.exp) && Checked(judge, jobs, results)
    ensures fresh(res) && Checked(judge, jobs + [job], results + [res])
  {
    res := CheckJudged(st, job, p, t, judge);
    CheckedMore(judge, jobs, results, job, res);
  }

  lemma {:induction false} CheckedMore(judge: Judging, jobs: seq<Job>, results: seq<AnchorResult>, job: Job, res: AnchorResult)
    requires Checked(judge, jobs, results) && res !in results
    requires res.a == job.a && res.offline == job.offline && judge(job, res.View())
    ensures Checked(judge, jobs + [job], results + [res])
  {
    ViewsAppend(results, [res]);
    assert Views([res]) == [res.View()];
    OneMoreJudged(judge, jobs, Views(results), job, res.View());
  }

  lemma {:induction false} OneMoreJudged(judge: Judging, jobs: seq<Job>, outs: seq<Outcome>, job: Job, o: Outcome)
    requires AllBy(judge, jobs, outs) && judge(job, o)
    ensures AllBy(judge, jobs + [job], outs + [o])
  {}

  lemma {:induction false} JudgedTogether(judge: Judging, a: seq<Job>, b: seq<Job>, xs: seq<Outcome>, ys: seq<Outcome>)
    requires AllBy(judge, a, xs) && AllBy(judge, b, ys)
    ensures AllBy(judge, a + b, xs + ys)
  {}

  lemma {:induction false} ViewsAppend(xs: seq<AnchorResult>, ys: seq<AnchorResult>)
    ensures Views(xs + ys) == Views(xs) + Views(ys)
  {
    var all := xs + ys;
    forall i | 0 <= i < |all| ensures Views(all)[i] == (Views(xs) + Views(ys))[i] {
      assert all[i] == if i < |xs| then xs[i] else ys[i - |xs|];
    }
  }

  method CheckOwn(st: ChainState, p: Primitives, t: Trust, anchors: seq<Receipt>, ghost judge: Judging)
    returns (results: seq<AnchorResult>, receipts: set<string>)
    requires st.Scanned(p, |st.exp.events|) && Judges(judge, p, t, st.exp)
    ensures fresh(results) && Checked(judge, OwnJobs(anchors), results)
    ensures receipts == EventIds(anchors)
  {
    results, receipts := [], {};
    NoneChecked(judge, anchors);
    for i := 0 to |anchors|
      invariant fresh(results) && OwnChecked(judge, anchors, i, results, receipts)
    {
      var res := CheckOwnNext(st, p, t, anchors, i, results, receipts, judge);
      results := results + [res];
      receipts := receipts + {anchors[i].eventId};
    }
    assert anchors[..|anchors|] == anchors;
  }

  /** The first i receipts are checked, and their events are known. */
  ghost predicate OwnChecked(judge: Judging, anchors: seq<Receipt>, i: nat, results: seq<AnchorResult>, receipts: set<string>)
    requires i <= |anchors|
    reads results
  {
    Checked(judge, OwnJobs(anchors[..i]), results) && receipts == EventIds(anchors[..i])
  }

  lemma NoneChecked(judge: Judging, anchors: seq<Receipt>)
    ensures OwnChecked(judge, anchors, 0, [], {})
  {}

  lemma OwnMore(anchors: seq<Receipt>, i: nat)
    requires i < |anchors|
    ensures EventIds(anchors[..i + 1]) == EventIds(anchors[..i]) + {anchors[i].eventId}
    ensures OwnJobs(anchors[..i + 1]) == OwnJobs(anchors[..i]) + [Job(anchors[i], false)]
  {
    assert anchors[..i + 1][..i] == anchors[..i];
  }

  method CheckOwnNext(st: ChainState, p: Primitives, t: Trust, anchors: seq<Receipt>, i: nat, results: seq<AnchorResult>,
                      receipts: set<string>, ghost judge: Judging)
    returns (res: AnchorResult)
    requires i < |anchors| && st.Scanned(p, |st.exp.events|) && Judges(judge, p, t, st.exp)
    requires OwnChecked(judge, anchors, i, results, receipts)
    ensures fresh(res) && OwnChecked(judge, anchors, i + 1, results + [res], receipts + {anchors[i].eventId})
  {
    OwnMore(anchors, i);
    res := CheckNext(st, Job(anchors[i], false), p, t, results, OwnJobs(anchors[..i]), judge);
  }

  /** The receipts beside the input are checked too; an unusable one or one of another chain only fails. */
  method CheckOffline(r: Report, st: ChainState, p: Primitives, t: Trust, offline: seq<Loaded>, ghost judge: Judging)
    returns (results: seq<AnchorResult>)
    requires st.Scanned(p, |st.exp.events|) && Judges(judge, p, t, st.exp)
    modifies r
    ensures fresh(results) && Checked(judge, BesideJobs(st.exp, offline), results)
    ensures r.checks == old(r.checks) + UnusableLines(st.exp, offline)
  {
    results := [];
    ghost var before := r.checks;
    NoneBeside(judge, st.exp, offline);
    for i := 0 to |offline|
      invariant fresh(results) && BesideChecked(judge, st.exp, offline, i, results)
      invariant r.checks == before + UnusableLines(st.exp, offline[..i])
    {
      var found := CheckFile(r, st, p, t, offline, i, results, judge);
      results := results + found;
      LineMore(before, UnusableLines(st.exp, offline[..i]), NextLine(st.exp, offline[i]));
    }
    assert offline[..|offline|] == offline;
  }

  /** The receipts of the first i files are checked. */
  ghost predicate BesideChecked(judge: Judging, x: Export, offline: seq<Loaded>, i: nat, results: seq<AnchorResult>)
    requires i <= |offline|
    reads results
  {
    Checked(judge, BesideJobs(x, offline[..i]), results)
  }

  lemma NoneBeside(judge: Judging, x: Export, offline: seq<Loaded>)
    ensures BesideChecked(judge, x, offline, 0, []) && UnusableLines(x, offline[..0]) == []
  {}

  lemma LineMore(a: seq<Check>, b: seq<Check>, c: seq<Check>)
    ensures a + b + c == a + (b + c)
  {}

  function NextLine(x: Export, rc: Loaded): seq<Check> {
    if Usable(x, rc) then [] else [Check("reanchor receipt", Fail)]
  }

  method CheckFile(r: Report, st: ChainState, p: Primitives, t: Trust, offline: seq<Loaded>, i: nat, results: seq<AnchorResult>,
                   ghost judge: Judging)
    returns (found: seq<AnchorResult>)
    requires i < |offline| && st.Scanned(p, |st.exp.events|) && Judges(judge, p, t, st.exp)
    requires BesideChecked(judge, st.exp, offline, i, results)
    modifies r
    ensures fresh(found) && BesideChecked(judge, st.exp, offline, i + 1, results + found)
    ensures UnusableLines(st.exp, offline[..i + 1]) == UnusableLines(st.exp, offline[..i]) + NextLine(st.exp, offline[i])
    ensures r.checks == old(r.checks) + NextLine(st.exp, offline[i])
  {
    var rc := offline[i];
    FileMore(st.exp, offline, i);
    if rc.unusable || (rc.archId != "" && st.exp.archId != "" && rc.archId != st.exp.archId) {
      r.Add("reanchor receipt", Fail);
      found := [];
      assert results + [] == results;
    } else {
      var res := CheckNext(st, Job(rc.a, true), p, t, results, BesideJobs(st.exp, offline[..i]), judge);
      found := [res];
    }
  }

  lemma FileMore(x: Export, offline: seq<Loaded>, i: nat)
    requires i < |offline|
    ensures BesideJobs(x, offline[..i + 1]) == BesideJobs(x, offline[..i]) + if Usable(x, offline[i]) then [Job(offline[i].a, true)] else []
    ensures UnusableLines(x, offline[..i + 1]) == UnusableLines(x, offline[..i]) + NextLine(x, offline[i])
  {
    assert offline[..i + 1][..i] == offline[..i];
  }

  lemma {:induction false} CheckedTogether(judge: Judging, a: seq<Job>, b: seq<Job>, xs: seq<AnchorResult>, ys: seq<AnchorResult>)
    requires Checked(judge, a, xs) && Checked(judge, b, ys) && forall i, j | 0 <= i < |xs| && 0 <= j < |ys| :: xs[i] != ys[j]
    ensures Checked(judge, a + b, xs + ys)
  {
    ViewsAppend(xs, ys);
    JudgedTogether(judge, a, b, Views(xs), Views(ys));
  }

  /** All receipts checked, before the long-term rule. */
  method CheckAll(r: Report, st: ChainState, p: Primitives, t: Trust, offline: seq<Loaded>, ghost judge: Judging)
    returns (results: seq<AnchorResult>, receipts: set<string>)
    requires st.Scanned(p, |st.exp.events|) && Judges(judge, p, t, st.exp)
    modifies r
    ensures fresh(results) && Checked(judge, Jobs(st.exp, offline), results)
    ensures receipts == EventIds(OkAnchors(st.exp.anchors))
    ensures r.checks == old(r.checks) + UnusableLines(st.exp, offline)
  {
    var anchors := SortedOk(st.exp.anchors);
    var own, ids := CheckOwn(st, p, t, anchors, judge);
    results := CheckBeside(r, st, p, t, offline, own, OwnJobs(anchors), judge);
    receipts := ids;
  }

  /** The results of the files after those of the export. */
  method CheckBeside(r: Report, st: ChainState, p: Primitives, t: Trust, offline: seq<Loaded>, own: seq<AnchorResult>,
                     ghost jobs: seq<Job>, ghost judge: Judging)
    returns (results: seq<AnchorResult>)
    requires st.Scanned(p, |st.exp.events|) && Judges(judge, p, t, st.exp) && Checked(judge, jobs, own)
    modifies r
    ensures |own| <= |results| && (forall k | 0 <= k < |own| :: results[k] == own[k]) && forall k | |own| <= k < |results| :: fresh(results[k])
    ensures Checked(judge, jobs + BesideJobs(st.exp, offline), results)
    ensures r.checks == old(r.checks) + UnusableLines(st.exp, offline)
  {
    var beside := CheckOffline(r, st, p, t, offline, judge);
    CheckedTogether(judge, jobs, BesideJobs(st.exp, offline), own, beside);
    results := own + beside;
  }

  // ---- the report --------------------------------------------------------------------------------

  /** The lines of the results, in order. */
  function ResultLines(outs: seq<Outcome>): seq<Check> {
    if outs == [] then [] else ResultLines(outs[..|outs| - 1]) + [Check("anchor", outs[|outs| - 1].status)]
  }

  lemma {:induction false} ResultLineAt(outs: seq<Outcome>, i: nat)
    requires i < |outs|
    ensures |ResultLines(outs)| == |outs| && ResultLines(outs)[i] == Check("anchor", outs[i].status)
  {
    if |outs| > 1 {
      ResultLineAt(outs[..|outs| - 1], if i < |outs| - 1 then i else 0);
    }
  }

  /** The lines of the chain_anchored events whose receipt is not in the export. */
  function RemovedLines(events: seq<Event>, receipts: set<string>): seq<Check> {
    if events == [] then []
    else RemovedLines(events[..|events| - 1], receipts)
         + if Removed(events[|events| - 1], receipts) then [Check("chain_anchored record", Fail)] else []
  }

  predicate Removed(e: Event, receipts: set<string>) { e.typ == CHAIN_ANCHORED && e.id !in receipts }

  /** The lines that always close the section. */
  function ClosingLines(x: Export, offline: seq<Loaded>): seq<Check> {
    (if OkAnchors(x.anchors) == [] then [Check("anchors", Info)] else [])
    + (if offline != [] then [Check("reanchor receipts", Info)] else [])
    + [Check("unanchored tail", Info)]
  }

  function ReportLines(x: Export, offline: seq<Loaded>, outs: seq<Outcome>): seq<Check> {
    ResultLines(outs) + RemovedLines(x.events, EventIds(OkAnchors(x.anchors))) + ClosingLines(x, offline)
  }

  /** What the anchor checks add to the report. */
  function AnchorLines(x: Export, offline: seq<Loaded>, outs: seq<Outcome>): seq<Check> {
    UnusableLines(x, offline) + ReportLines(x, offline, outs)
  }

  method ReportResults(r: Report, results: seq<AnchorResult>)
    modifies r
    ensures r.checks == old(r.checks) + ResultLines(Views(results))
  {
    ghost var outs := Views(results);
    for i := 0 to |results|
      invariant r.checks == old(r.checks) + ResultLines(outs[..i])
    {
      assert outs[..i + 1][..i] == outs[..i];
      r.Add("anchor", results[i].status);
    }
    assert outs[..|results|] == outs;
  }

  /** The positions of those events, in order. */
  function RemovedAt(events: seq<Event>, receipts: set<string>): seq<nat> {
    if events == [] then []
    else RemovedAt(events[..|events| - 1], receipts)
         + if Removed(events[|events| - 1], receipts) then [|events| - 1] else []
  }

  lemma {:induction false} RemovedAtIs(events: seq<Event>, receipts: set<string>)
    ensures forall i: nat :: i in RemovedAt(events, receipts) <==> i < |events| && Removed(events[i], receipts)
    ensures forall i, j | 0 <= i < j < |RemovedAt(events, receipts)| :: RemovedAt(events, receipts)[i] < RemovedAt(events, receipts)[j]
  {
    if events != [] {
      var rest := events[..|events| - 1];
      RemovedAtIs(rest, receipts);
      assert forall j | 0 <= j < |RemovedAt(rest, receipts)| :: RemovedAt(rest, receipts)[j] in RemovedAt(rest, receipts);
    }
  }

  /** The chain_anchored events whose receipt is not in the export, each once. */
  method RemovedReceipts(r: Report, x: Export, receipts: set<string>) returns (removed: seq<nat>)
    modifies r
    ensures forall i: nat :: i in removed <==> i < |x.events| && Removed(x.events[i], receipts)
    ensures forall i, j | 0 <= i < j < |removed| :: removed[i] < removed[j]
    ensures r.checks == old(r.checks) + RemovedLines(x.events, receipts)
  {
    removed := [];
    for i := 0 to |x.events|
      invariant removed == RemovedAt(x.events[..i], receipts)
      invariant r.checks == old(r.checks) + RemovedLines(x.events[..i], receipts)
    {
      assert x.events[..i + 1][..i] == x.events[..i];
      if x.events[i].typ == CHAIN_ANCHORED && x.events[i].id !in receipts {
        r.Add("chain_anchored record", Fail);
        removed := removed + [i];
      }
    }
    assert x.events[..|x.events|] == x.events;
    RemovedAtIs(x.events, receipts);
  }

  method Close(r: Report, x: Export, offline: seq<Loaded>)
    modifies r
    ensures r.checks == old(r.checks) + ClosingLines(x, offline)
  {
    var anchors := SortedOk(x.anchors);
    if |anchors| == 0 {
      r.Add("anchors", Info);
    }
    if |offline| > 0 {
      r.Add("reanchor receipts", Info);
    }
    r.Add("unanchored tail", Info);
  }

  /** The last placed receipt that did not fail, if there is one. */
  predicate IsLast(results: seq<AnchorResult>, last: AnchorResult?)
    reads results, if last == null then {} else {last}
  {
    (last != null ==> last in results && last.status != Fail && last.headIdx >= 0)
    && forall q | q in results && q.status != Fail && q.headIdx >= 0 :: last != null && q.headIdx <= last.headIdx
  }

  method Conclude(r: Report, x: Export, offline: seq<Loaded>, results: seq<AnchorResult>, receipts: set<string>, ghost outs: seq<Outcome>)
    returns (last: AnchorResult?, removed: seq<nat>)
    requires Views(results) == outs && receipts == EventIds(OkAnchors(x.anchors))
    modifies r
    ensures Views(results) == outs && IsLast(results, last)
    ensures forall i: nat :: i in removed <==> i < |x.events| && Removed(x.events[i], receipts)
    ensures r.checks == old(r.checks) + ReportLines(x, offline, outs)
  {
    last := LastAnchor(results);
    removed := WriteReport(r, x, offline, results, receipts, outs);
  }

  method WriteReport(r: Report, x: Export, offline: seq<Loaded>, results: seq<AnchorResult>, receipts: set<string>, ghost outs: seq<Outcome>)
    returns (removed: seq<nat>)
    requires Views(results) == outs && receipts == EventIds(OkAnchors(x.anchors))
    modifies r
    ensures forall i: nat :: i in removed <==> i < |x.events| && Removed(x.events[i], receipts)
    ensures r.checks == old(r.checks) + ReportLines(x, offline, outs)
  {
    ghost var before := r.checks;
    ReportResults(r, results);
    removed := RemovedReceipts(r, x, receipts);
    Close(r, x, offline);
    ThreeParts(before, ResultLines(outs), RemovedLines(x.events, receipts), ClosingLines(x, offline));
  }

  lemma ThreeParts(a: seq<Check>, b: seq<Check>, c: seq<Check>, d: seq<Check>)
    ensures a + b + c + d == a + (b + c + d)
  {}

  method CheckAndSettle(r: Report, st: ChainState, p: Primitives, t: Trust, offline: seq<Loaded>, ghost judge: Judging)
    returns (results: seq<AnchorResult>, receipts: set<string>, ghost was: seq<Outcome>)
    requires st.Scanned(p, |st.exp.events|) && Judges(judge, p, t, st.exp)
    modifies r
    ensures ResultsOf(results, Jobs(st.exp, offline)) && AllBy(judge, Jobs(st.exp, offline), was)
    ensures fresh(results) && Views(results) == SettledAll(was)
    ensures receipts == EventIds(OkAnchors(st.exp.anchors))
    ensures r.checks == old(r.checks) + UnusableLines(st.exp, offline)
  {
    results, receipts := CheckAll(r, st, p, t, offline, judge);
    was := Views(results);
    ApplyLongTerm(results);
  }

  method CheckAndReport(r: Report, st: ChainState, p: Primitives, t: Trust, offline: seq<Loaded>, ghost judge: Judging)
    returns (results: seq<AnchorResult>, last: AnchorResult?, removed: seq<nat>, ghost was: seq<Outcome>)
    requires st.Scanned(p, |st.exp.events|) && Judges(judge, p, t, st.exp)
    modifies r
    ensures ResultsOf(results, Jobs(st.exp, offline)) && AllBy(judge, Jobs(st.exp, offline), was)
    ensures Views(results) == SettledAll(was)
    ensures r.checks == old(r.checks) + AnchorLines(st.exp, offline, SettledAll(was))
    ensures IsLast(results, last)
    ensures forall i: nat :: i in removed <==>
              i < |st.exp.events| && Removed(st.exp.events[i], EventIds(OkAnchors(st.exp.anchors)))
  {
    ghost var before := r.checks;
    var receipts;
    results, receipts, was := CheckAndSettle(r, st, p, t, offline, judge);
    last, removed := Conclude(r, st.exp, offline, results, receipts, SettledAll(was));
    LineMore(before, UnusableLines(st.exp, offline), ReportLines(st.exp, offline, SettledAll(was)));
  }

  /** verifyAnchors: every ok receipt of the export and every usable one beside it has its result, judged by
      its own checks and then by the long-term rule; the report gets one line for each with its status; the
      tail starts after the last placed receipt that did not fail; and every chain_anchored event without a
      receipt is reported. */
  method VerifyAnchors(r: Report, st: ChainState, p: Primitives, t: Trust, offline: seq<Loaded>)
    returns (results: seq<AnchorResult>, last: AnchorResult?, removed: seq<nat>, ghost was: seq<Outcome>)
    requires st.Scanned(p, |st.exp.events|)
    modifies r
    ensures ResultsOf(results, Jobs(st.exp, offline)) && JudgedAll(p, t, st.exp, Jobs(st.exp, offline), was)
    ensures Views(results) == SettledAll(was) && AllStand(p, t, st.exp, Jobs(st.exp, offline), SettledAll(was))
    ensures r.checks == old(r.checks) + AnchorLines(st.exp, offline, SettledAll(was))
    ensures IsLast(results, last)
    ensures forall i: nat :: i in removed <==>
              i < |st.exp.events| && st.exp.events[i].typ == CHAIN_ANCHORED && !HasReceipt(st.exp, st.exp.events[i].id)
  {
    ghost var judge: Judging := (job, o) => Judged(p, t, st.exp, job, o);
    results, last, removed, was := CheckAndReport(r, st, p, t, offline, judge);
    AllJudged(judge, p, t, st.exp, Jobs(st.exp, offline), was);
    PassingStands(p, t, st.exp, Jobs(st.exp, offline), was);
  }

  // ---- what an accepted receipt is worth ---------------------------------------------------------

  /** Two exports that verify and hold receipts over one head agree on every event up to that head, in
      full wherever one of them holds a plain event. */
  lemma {:induction false} HeadPinsHistory(p: Primitives, x: Export, y: Export, a: Receipt, b: Receipt, i: nat, j: nat)
    requires Faithful(p) && Verifies(p, x) && Verifies(p, y)
    requires Sited(p, x, a, i) && Sited(p, y, b, j) && a.headHash == b.headHash
    ensures i == j
    ensures forall k | 0 <= k <= i :: EventsAgree(p, x.events[k], y.events[k])
  {
    assert LinkHolds(p, x, i) && LinkHolds(p, y, j);
    TamperEvidence(p, x, y, |x.events|, |y.events|, i, j);
  }

  /** What the long-term rule relies on: the carrier of an expired receipt commits to every event the
      receipt committed to, so any other export with the carrier's head agrees up to the receipt. */
  lemma {:induction false} CarrierPinsHistory(
    p: Primitives, x: Export, y: Export, a: Receipt, b: Receipt, c: Receipt, oa: Outcome, ob: Outcome, j: nat)
    requires Faithful(p) && Verifies(p, x) && Verifies(p, y)
    requires Carries(ob, oa) && oa.headIdx >= 0
    requires Sited(p, x, a, oa.headIdx) && Sited(p, x, b, ob.headIdx) && Sited(p, y, c, j) && c.headHash == b.headHash
    ensures oa.headIdx <= j && Recomputed(p, y.events[oa.headIdx]) == a.headHash
    ensures forall k | 0 <= k <= oa.headIdx :: EventsAgree(p, x.events[k], y.events[k])
  {
    assert LinkHolds(p, x, ob.headIdx) && LinkHolds(p, y, j);
    TamperEvidence(p, x, y, |x.events|, |y.events|, ob.headIdx, j);
    assert LinkHolds(p, x, oa.headIdx) && LinkHolds(p, y, oa.headIdx);
  }
}
