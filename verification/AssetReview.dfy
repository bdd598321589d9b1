/** The review machines of an asset, its versions and their virus scans (backend/asset/models.py, tasks.py). */
module AssetReview {

  datatype Status = NotSubmitted | PendingReview | UnderReview | Approved | RevisionRequired | Archived

  datatype VersionStatus = Draft | Finalized

  datatype ScanStatus = Pending | Scanning | Clean | Infected | Error

  /** A row of the version table; `checksum` is 0 when there is no file. */
  datatype Version = Version(number: int, status: VersionStatus, scan: ScanStatus, hasFile: bool, checksum: nat)

  datatype Transition = Transition(from: Status, to: Status)

  datatype AssetState = AssetState(status: Status, versions: seq<Version>, log: seq<Transition>)

  const NEW_ASSET := AssetState(NotSubmitted, [], [])

  // ----- guards

  predicate HasDraft(versions: seq<Version>) {
    exists i | 0 <= i < |versions| :: versions[i].status == Draft
  }

  /** Index of the version with the highest number. */
  function Latest(versions: seq<Version>): (k: nat)
    requires versions != []
    ensures k < |versions| && forall i | 0 <= i < |versions| :: versions[i].number <= versions[k].number
  {
    if |versions| == 1 then 0
    else
      var k := Latest(versions[..|versions| - 1]);
      if versions[|versions| - 1].number > versions[k].number then |versions| - 1 else k
  }

  predicate LatestIsFinalized(versions: seq<Version>) {
    versions != [] && versions[Latest(versions)].status == Finalized
  }

  predicate CanSubmit(st: AssetState) {
    && st.status in {NotSubmitted, RevisionRequired}
    && !HasDraft(st.versions)
    && LatestIsFinalized(st.versions)
    && LatestIsClean(st.versions)
  }

  predicate LatestIsClean(versions: seq<Version>) {
    versions != [] && versions[Latest(versions)].scan == Clean
  }

  predicate CanCreateVersion(st: AssetState) {
    && st.status in {NotSubmitted, RevisionRequired}
    && !HasDraft(st.versions)
    && (st.versions == [] || LatestIsFinalized(st.versions))
  }

  // ----- events

  /** The file handed to a create or update, if any, by its checksum. */
  datatype Upload = NoFile | File(checksum: nat)

  datatype Event =
    | Submit | StartReview | Approve | Reject | AcknowledgeRejection | Archive
    | CreateVersion(number: int, upload: Upload)
    | UpdateVersion(i: nat, upload: Upload)
    | DeleteVersion(i: nat)
    | Finalize(i: nat)
    | StartScan(i: nat)
    | FinishScan(i: nat, result: ScanStatus)
    | ResetFailedScan(i: nat)

  /** The transition table of the asset status. */
  function Target(status: Status, e: Event): Status {
    match e
    case Submit => if status in {NotSubmitted, RevisionRequired} then PendingReview else status
    case StartReview => if status == PendingReview then UnderReview else status
    case Approve => if status == UnderReview then Approved else status
    case Reject => if status == UnderReview then RevisionRequired else status
    case AcknowledgeRejection => if status == RevisionRequired then NotSubmitted else status
    case Archive => if status == Approved then Archived else status
    case _ => status
  }

  predicate Accepts(st: AssetState, e: Event) {
    match e
    case Submit => CanSubmit(st)
    case StartReview => st.status == PendingReview
    case Approve => st.status == UnderReview
    case Reject => st.status == UnderReview
    case AcknowledgeRejection => st.status == RevisionRequired
    case Archive => st.status == Approved
    case CreateVersion(number, upload) => CanCreateVersion(st)
    case UpdateVersion(i, upload) =>
      && i < |st.versions| && st.versions[i].status == Draft
      && (upload.File? ==> !(st.versions[i].hasFile && st.versions[i].checksum == upload.checksum))
    case DeleteVersion(i) => i < |st.versions| && st.versions[i].status == Draft
    case Finalize(i) => i < |st.versions| && st.versions[i].status == Draft && st.versions[i].scan == Clean
    case StartScan(i) => i < |st.versions| && st.versions[i].scan == Pending
    case FinishScan(i, result) =>
      i < |st.versions| && st.versions[i].scan in {Pending, Scanning} && result in {Clean, Infected, Error}
    case ResetFailedScan(i) => i < |st.versions| && st.versions[i].scan == Error
  }

  function WithFile(v: Version, upload: Upload): Version {
    match upload
    case NoFile => v
    case File(checksum) => v.(hasFile := true, checksum := checksum, scan := Pending)
  }

  /** What an event does; a refused event raises and changes nothing. */
  function Apply(st: AssetState, e: Event): AssetState {
    if !Accepts(st, e) then st
    else
      match e
      case CreateVersion(number, upload) =>
        st.(versions := st.versions + [WithFile(Version(number, Draft, Pending, false, 0), upload)])
      case UpdateVersion(i, upload) => st.(versions := st.versions[i := WithFile(st.versions[i], upload)])
      case DeleteVersion(i) => st.(versions := st.versions[..i] + st.versions[i + 1..])
      case Finalize(i) => st.(versions := st.versions[i := st.versions[i].(status := Finalized)])
      case StartScan(i) => st.(versions := st.versions[i := st.versions[i].(scan := Scanning)])
      case FinishScan(i, result) => st.(versions := st.versions[i := st.versions[i].(scan := result)])
      case ResetFailedScan(i) => st.(versions := st.versions[i := st.versions[i].(scan := Pending)])
      case _ =>
        var to := Target(st.status, e);
        st.(status := to, log := st.log + [Transition(st.status, to)])
  }

  function Run(st: AssetState, events: seq<Event>): AssetState {
    if events == [] then st else Apply(Run(st, events[..|events| - 1]), events[|events| - 1])
  }

  // ----- what holds of every reachable asset

  predicate InReview(status: Status) {
    status in {PendingReview, UnderReview, Approved, Archived}
  }

  /** Numbers rise with the age of the rows, so the latest version is the last one. */
  ghost predicate RisingNumbers(versions: seq<Version>) {
    forall i, j | 0 <= i < j < |versions| :: versions[i].number < versions[j].number
  }

  ghost predicate OnlyLastIsDraft(versions: seq<Version>) {
    forall i | 0 <= i < |versions| && versions[i].status == Draft :: i == |versions| - 1
  }

  ghost predicate FinalizedAreClean(versions: seq<Version>) {
    forall i | 0 <= i < |versions| && versions[i].status == Finalized :: versions[i].scan == Clean
  }

  predicate Allowed(t: Transition) {
    || (t.from in {NotSubmitted, RevisionRequired} && t.to == PendingReview)
    || (t.from == PendingReview && t.to == UnderReview)
    || (t.from == UnderReview && t.to in {Approved, RevisionRequired})
    || (t.from == RevisionRequired && t.to == NotSubmitted)
    || (t.from == Approved && t.to == Archived)
  }

  /** The log leads from NotSubmitted to `status` by allowed transitions. */
  ghost predicate ChainTo(log: seq<Transition>, status: Status) {
    if log == [] then status == NotSubmitted
    else
      var last := log[|log| - 1];
      last.to == status && Allowed(last) && ChainTo(log[..|log| - 1], last.from)
  }

  ghost predicate SoundVersions(versions: seq<Version>) {
    RisingNumbers(versions) && OnlyLastIsDraft(versions) && FinalizedAreClean(versions)
  }

  ghost predicate HasFinalized(versions: seq<Version>) {
    exists v :: v in versions && v.status == Finalized
  }

  /** The latest version is finalized and clean, and there is no draft. */
  ghost predicate Reviewable(versions: seq<Version>) {
    !HasDraft(versions) && LatestIsFinalized(versions) && LatestIsClean(versions)
  }

  /**
   The joint invariant: at most one draft, and it is the latest version; finalized versions are clean;
   an asset in review, approved or archived has only reviewable versions, and a rejected one still has
   a finalized version; the log explains its status.
   */
  ghost predicate Reachable(st: AssetState) {
    && SoundVersions(st.versions)
    && (InReview(st.status) ==> Reviewable(st.versions))
    && (st.status == RevisionRequired ==> HasFinalized(st.versions))
    && ChainTo(st.log, st.status)
  }

  /** New versions are numbered above the existing ones. */
  ghost predicate NumberedAbove(st: AssetState, e: Event) {
    e.CreateVersion? ==> forall i | 0 <= i < |st.versions| :: st.versions[i].number < e.number
  }

  /** While an asset is in review, approved or archived, nothing can change its versions. */
  lemma ReviewFreezesVersions(st: AssetState, e: Event)
    requires Reachable(st) && InReview(st.status)
    ensures Apply(st, e).versions == st.versions
  {
  }

  lemma NewDraftIsSound(versions: seq<Version>, v: Version)
    requires SoundVersions(versions) && !HasDraft(versions) && v.status == Draft
    requires forall i | 0 <= i < |versions| :: versions[i].number < v.number
    ensures SoundVersions(versions + [v])
  {
  }

  lemma ChangedVersionIsSound(versions: seq<Version>, i: nat, v: Version)
    requires SoundVersions(versions) && i < |versions| && v.number == versions[i].number
    requires v.status == Draft ==> versions[i].status == Draft
    requires v.status == Finalized ==> v.scan == Clean
    ensures SoundVersions(versions[i := v])
  {
  }

  lemma DeletedDraftLeavesSound(versions: seq<Version>, i: nat)
    requires SoundVersions(versions) && i < |versions| && versions[i].status == Draft
    ensures SoundVersions(versions[..i] + versions[i + 1..])
  {
  }

  lemma VersionsStaySound(st: AssetState, e: Event)
    requires SoundVersions(st.versions) && NumberedAbove(st, e)
    ensures SoundVersions(Apply(st, e).versions)
  {
    if Accepts(st, e) {
      match e
      case CreateVersion(number, upload) =>
        NewDraftIsSound(st.versions, WithFile(Version(number, Draft, Pending, false, 0), upload));
      case UpdateVersion(i, upload) => ChangedVersionIsSound(st.versions, i, WithFile(st.versions[i], upload));
      case DeleteVersion(i) => DeletedDraftLeavesSound(st.versions, i);
      case Finalize(i) => ChangedVersionIsSound(st.versions, i, st.versions[i].(status := Finalized));
      case StartScan(i) => ChangedVersionIsSound(st.versions, i, st.versions[i].(scan := Scanning));
      case FinishScan(i, result) => ChangedVersionIsSound(st.versions, i, st.versions[i].(scan := result));
      case ResetFailedScan(i) => ChangedVersionIsSound(st.versions, i, st.versions[i].(scan := Pending));
      case _ =>
    }
  }

  lemma ApplyKeepsReachable(st: AssetState, e: Event)
    requires Reachable(st) && NumberedAbove(st, e)
    ensures Reachable(Apply(st, e))
  {
    VersionsStaySound(st, e);
    if InReview(st.status) { ReviewFreezesVersions(st, e); }
    if Apply(st, e).status == RevisionRequired { FinalizedRemains(st, e); }
    LogStaysAChain(st, e);
  }

  lemma FinalizedRemains(st: AssetState, e: Event)
    requires Reachable(st) && Apply(st, e).status == RevisionRequired
    ensures HasFinalized(Apply(st, e).versions)
  {
    if st.status == RevisionRequired {
      var v :| v in st.versions && v.status == Finalized;
      FinalizedSurvives(st, e, v);
    } else {
      assert st.versions[Latest(st.versions)] in st.versions;
    }
  }

  lemma LogStaysAChain(st: AssetState, e: Event)
    requires ChainTo(st.log, st.status)
    ensures ChainTo(Apply(st, e).log, Apply(st, e).status)
  {
  }

  /** Each new version of a run is numbered above the versions that exist at that moment. */
  ghost predicate NumbersRise(st: AssetState, events: seq<Event>) {
    events == []
    || (NumbersRise(st, events[..|events| - 1])
        && NumberedAbove(Run(st, events[..|events| - 1]), events[|events| - 1]))
  }

  lemma {:induction false} EveryRunIsReachable(st: AssetState, events: seq<Event>)
    requires Reachable(st) && NumbersRise(st, events)
    ensures Reachable(Run(st, events))
  {
    if events != [] {
      EveryRunIsReachable(st, events[..|events| - 1]);
      ApplyKeepsReachable(Run(st, events[..|events| - 1]), events[|events| - 1]);
    }
  }

  lemma NewAssetIsReachable()
    ensures Reachable(NEW_ASSET)
  {
  }

  /** The joint invariant holds of every asset, whatever has happened to it since it was created. */
  lemma {:induction false} EveryAssetIsReachable(events: seq<Event>)
    requires NumbersRise(NEW_ASSET, events)
    ensures Reachable(Run(NEW_ASSET, events))
  {
    NewAssetIsReachable();
    EveryRunIsReachable(NEW_ASSET, events);
  }

  /** The numbering of the create view, one above the latest version, satisfies `NumberedAbove`. */
  lemma ViewNumbersRise(st: AssetState, upload: Upload)
    ensures var next := if st.versions == [] then 1 else st.versions[Latest(st.versions)].number + 1;
            NumberedAbove(st, CreateVersion(next, upload))
  {
  }

  /** A finalized version is never changed or removed, whatever happens later. */
  lemma {:induction false} FinalizedIsForever(st: AssetState, events: seq<Event>, v: Version)
    requires Reachable(st) && NumbersRise(st, events) && v in st.versions && v.status == Finalized
    ensures v in Run(st, events).versions
  {
    if events != [] {
      var front, e := events[..|events| - 1], events[|events| - 1];
      FinalizedIsForever(st, front, v);
      EveryRunIsReachable(st, front);
      FinalizedSurvives(Run(st, front), e, v);
    }
  }

  lemma FinalizedSurvives(st: AssetState, e: Event, v: Version)
    requires Reachable(st) && v in st.versions && v.status == Finalized
    ensures v in Apply(st, e).versions
  {
    var k :| 0 <= k < |st.versions| && st.versions[k] == v;
    assert v.scan == Clean;
    var r := Apply(st, e);
    match e
    case CreateVersion(_, _) => assert r.versions[k] == v;
    case DeleteVersion(i) =>
      if Accepts(st, e) {
        assert i != k;
        assert r.versions[if k < i then k else k - 1] == v;
      }
    case UpdateVersion(i, _) => assert r.versions[k] == v;
    case Finalize(i) => assert r.versions[k] == v;
    case StartScan(i) => assert r.versions[k] == v;
    case FinishScan(i, _) => assert r.versions[k] == v;
    case ResetFailedScan(i) => assert r.versions[k] == v;
    case _ =>
  }

  // ----- the guards of the review views

  predicate ReviewEvent(e: Event) {
    e in {StartReview, Approve, Reject, AcknowledgeRejection, Archive}
  }

  predicate FromSource(st: AssetState, e: Event)
    requires ReviewEvent(e)
  {
    match e
    case StartReview => st.status == PendingReview
    case Archive => st.status == Approved
    case AcknowledgeRejection => st.status == RevisionRequired
    case _ => st.status == UnderReview
  }

  /**
   `can_start_review`, `can_approve`, `can_reject`, `can_acknowledge_rejection` and `can_archive`: some
   version exists.
   */
  predicate LooseGuard(st: AssetState, e: Event)
    requires ReviewEvent(e)
  {
    FromSource(st, e) && st.versions != []
  }

  /** The guards that these replaced: the latest version is finalized. */
  predicate StrictGuard(st: AssetState, e: Event)
    requires ReviewEvent(e)
  {
    FromSource(st, e) && LatestIsFinalized(st.versions)
  }

  /**
   The guards never refuse what the status allows, and only one of them got weaker when it stopped
   asking for a finalized version: a rejection can be acknowledged although there is a draft.
   */
  lemma {:induction false} LooseGuardsExactly(events: seq<Event>, e: Event)
    requires NumbersRise(NEW_ASSET, events) && ReviewEvent(e)
    ensures var st := Run(NEW_ASSET, events);
            && (LooseGuard(st, e) <==> Accepts(st, e))
            && (StrictGuard(st, e) <==> LooseGuard(st, e) && !(e == AcknowledgeRejection && HasDraft(st.versions)))
  {
    EveryAssetIsReachable(events);
    GuardsOfReachable(Run(NEW_ASSET, events), e);
  }

  lemma GuardsOfReachable(st: AssetState, e: Event)
    requires Reachable(st) && ReviewEvent(e)
    ensures LooseGuard(st, e) <==> Accepts(st, e)
    ensures StrictGuard(st, e) <==> LooseGuard(st, e) && !(e == AcknowledgeRejection && HasDraft(st.versions))
  {
    if st.status == RevisionRequired {
      DraftIsLatest(st.versions);
    }
  }

  lemma DraftIsLatest(versions: seq<Version>)
    requires SoundVersions(versions) && versions != []
    ensures LatestIsFinalized(versions) <==> !HasDraft(versions)
  {
    assert Latest(versions) == |versions| - 1;
  }

  ghost predicate Leads(events: seq<Event>, st: AssetState) {
    NumbersRise(NEW_ASSET, events) && Run(NEW_ASSET, events) == st
  }

  lemma OneMoreEvent(events: seq<Event>, st: AssetState, e: Event, next: AssetState)
    requires Leads(events, st) && NumberedAbove(st, e) && Apply(st, e) == next
    ensures Leads(events + [e], next)
  {
    assert (events + [e])[..|events|] == events;
  }

  lemma UploadedDraft(c: nat)
    ensures Leads([CreateVersion(1, File(c))], AssetState(NotSubmitted, [Version(1, Draft, Pending, true, c)], []))
  {
    assert [] + [CreateVersion(1, File(c))] == [CreateVersion(1, File(c))];
    OneMoreEvent([], NEW_ASSET, CreateVersion(1, File(c)),
                 AssetState(NotSubmitted, [Version(1, Draft, Pending, true, c)], []));
  }

  lemma ScannedDraft(c: nat)
    ensures Leads([CreateVersion(1, File(c))] + [FinishScan(0, Clean)],
                  AssetState(NotSubmitted, [Version(1, Draft, Clean, true, c)], []))
  {
    UploadedDraft(c);
    OneMoreEvent([CreateVersion(1, File(c))], AssetState(NotSubmitted, [Version(1, Draft, Pending, true, c)], []),
                 FinishScan(0, Clean), AssetState(NotSubmitted, [Version(1, Draft, Clean, true, c)], []));
  }

  lemma FirstVersion(v: Version)
    requires v == Version(1, Finalized, Clean, true, 1)
    ensures Leads([CreateVersion(1, File(1))] + [FinishScan(0, Clean)] + [Finalize(0)],
                  AssetState(NotSubmitted, [v], []))
  {
    ScannedDraft(1);
    OneMoreEvent([CreateVersion(1, File(1))] + [FinishScan(0, Clean)],
                 AssetState(NotSubmitted, [v.(status := Draft)], []), Finalize(0), AssetState(NotSubmitted, [v], []));
  }

  lemma SubmittedAndRejected(events: seq<Event>, v: Version) returns (log: seq<Transition>)
    requires Leads(events, AssetState(NotSubmitted, [v], [])) && v == Version(1, Finalized, Clean, true, 1)
    ensures Leads(events + [Submit] + [StartReview] + [Reject], AssetState(RevisionRequired, [v], log))
  {
    var s, r, x := Transition(NotSubmitted, PendingReview), Transition(PendingReview, UnderReview),
                   Transition(UnderReview, RevisionRequired);
    log := [s, r, x];
    var submitted, started := AssetState(PendingReview, [v], [s]), AssetState(UnderReview, [v], [s, r]);
    OneMoreEvent(events, AssetState(NotSubmitted, [v], []), Submit, submitted);
    OneMoreEvent(events + [Submit], submitted, StartReview, started);
    OneMoreEvent(events + [Submit] + [StartReview], started, Reject, AssetState(RevisionRequired, [v], log));
  }

  /** A first version is scanned, finalized, submitted and rejected, and then a second one is drafted. */
  lemma AcknowledgedWithDraft()
    ensures var events := [CreateVersion(1, File(1))] + [FinishScan(0, Clean)] + [Finalize(0)]
                          + [Submit] + [StartReview] + [Reject] + [CreateVersion(2, NoFile)];
            var st := Run(NEW_ASSET, events);
            && NumbersRise(NEW_ASSET, events)
            && LooseGuard(st, AcknowledgeRejection) && !StrictGuard(st, AcknowledgeRejection)
  {
    var v, draft := Version(1, Finalized, Clean, true, 1), Version(2, Draft, Pending, false, 0);
    var first := [CreateVersion(1, File(1))] + [FinishScan(0, Clean)] + [Finalize(0)];
    FirstVersion(v);
    var log := SubmittedAndRejected(first, v);
    OneMoreEvent(first + [Submit] + [StartReview] + [Reject], AssetState(RevisionRequired, [v], log),
                 CreateVersion(2, NoFile), AssetState(RevisionRequired, [v, draft], log));
    assert Latest([v, draft]) == 1;
  }

  /** What is approved is exactly what was submitted: from submission on, the versions stay as they were. */
  lemma {:induction false} ApprovedAsSubmitted(st: AssetState, events: seq<Event>)
    requires Reachable(st) && NumbersRise(st, events)
    requires forall k | 0 <= k <= |events| :: InReview(Run(st, events[..k]).status)
    ensures Run(st, events).versions == st.versions
  {
    if events != [] {
      var front := events[..|events| - 1];
      forall k | 0 <= k <= |front| ensures InReview(Run(st, front[..k]).status) {
        assert front[..k] == events[..k];
      }
      ApprovedAsSubmitted(st, front);
      EveryRunIsReachable(st, front);
      assert events[..|front|] == front;
      ReviewFreezesVersions(Run(st, front), events[|events| - 1]);
    } else {
      assert events[..0] == events;
    }
  }

  // ----- the rows themselves

  class Asset {
    var status: Status
    var versions: seq<Version>
    var log: seq<Transition>

    ghost function State(): AssetState
      reads this
    {
      AssetState(status, versions, log)
    }

    constructor ()
      ensures State() == NEW_ASSET
    {
      status, versions, log := NotSubmitted, [], [];
    }

    method Submit() returns (ok: bool)
      modifies this
      ensures ok == Accepts(old(State()), Event.Submit) && State() == Apply(old(State()), Event.Submit)
    {
      if status != NotSubmitted && status != RevisionRequired { return false; }
      if HasDraft(versions) || !LatestIsFinalized(versions) || !LatestIsClean(versions) { return false; }
      log := log + [Transition(status, PendingReview)];
      status := PendingReview;
      return true;
    }

    /** `start_review`, `approve`, `reject`, `acknowledge_rejection` and `archive`: one source state each. */
    method Advance(e: Event) returns (ok: bool)
      requires e in {StartReview, Approve, Reject, AcknowledgeRejection, Archive}
      modifies this
      ensures ok == Accepts(old(State()), e) && State() == Apply(old(State()), e)
    {
      var source, target;
      match e {
        case StartReview => source, target := PendingReview, UnderReview;
        case Approve => source, target := UnderReview, Approved;
        case Reject => source, target := UnderReview, RevisionRequired;
        case AcknowledgeRejection => source, target := RevisionRequired, NotSubmitted;
        case Archive => source, target := Approved, Archived;
      }
      if status != source { return false; }
      log := log + [Transition(status, target)];
      status := target;
      return true;
    }

    method CreateNewVersion(number: int, upload: Upload) returns (ok: bool)
      modifies this`versions
      ensures ok == Accepts(old(State()), CreateVersion(number, upload))
      ensures State() == Apply(old(State()), CreateVersion(number, upload))
    {
      if status != NotSubmitted && status != RevisionRequired { return false; }
      if HasDraft(versions) || !(versions == [] || LatestIsFinalized(versions)) { return false; }
      var v := Version(number, Draft, Pending, false, 0);
      if upload.File? { v := v.(hasFile := true, checksum := upload.checksum); }
      versions := versions + [v];
      return true;
    }

    method UpdateWithFile(i: nat, upload: Upload) returns (ok: bool)
      requires i < |versions|
      modifies this`versions
      ensures ok == Accepts(old(State()), UpdateVersion(i, upload))
      ensures State() == Apply(old(State()), UpdateVersion(i, upload))
    {
      if versions[i].status != Draft { return false; }
      var v := versions[i];
      if upload.File? {
        if versions[i].hasFile && versions[i].checksum == upload.checksum { return false; }
        v := v.(hasFile := true, checksum := upload.checksum, scan := Pending);
      }
      versions := versions[i := v];
      return true;
    }

    method DeleteDraft(i: nat) returns (ok: bool)
      requires i < |versions|
      modifies this`versions
      ensures ok == Accepts(old(State()), DeleteVersion(i)) && State() == Apply(old(State()), DeleteVersion(i))
    {
      if versions[i].status != Draft { return false; }
      versions := versions[..i] + versions[i + 1..];
      return true;
    }

    method FinalizeVersion(i: nat) returns (ok: bool)
      requires i < |versions|
      modifies this`versions
      ensures ok == Accepts(old(State()), Finalize(i)) && State() == Apply(old(State()), Finalize(i))
    {
      if versions[i].status != Draft || versions[i].scan != Clean { return false; }
      versions := versions[i := versions[i].(status := Finalized)];
      return true;
    }

    /** `update_scan_status`: a pending version is first moved to scanning, and only a scanning one gets a result. */
    method UpdateScanStatus(i: nat, result: ScanStatus) returns (ok: bool)
      requires i < |versions| && result in {Clean, Infected, Error}
      modifies this`versions
      ensures ok == Accepts(old(State()), FinishScan(i, result))
      ensures State() == Apply(old(State()), FinishScan(i, result))
    {
      ghost var before := versions;
      if versions[i].scan != Pending && versions[i].scan != Scanning { return false; }
      if versions[i].scan == Pending { versions := versions[i := versions[i].(scan := Scanning)]; }
      versions := versions[i := versions[i].(scan := result)];
      assert versions == before[i := before[i].(scan := result)];
      return true;
    }

    /** `scan_version`; `verdict` is what the virus scanner says about the file. */
    method ScanVersion(i: nat, verdict: ScanStatus)
      requires i < |versions| && verdict in {Clean, Infected, Error}
      modifies this`versions
      ensures State() ==
        if !old(versions)[i].hasFile then Apply(old(State()), FinishScan(i, Error))
        else if old(versions)[i].scan != Pending then old(State())
        else Apply(Apply(old(State()), StartScan(i)), FinishScan(i, verdict))
    {
      if !versions[i].hasFile {
        var _ := UpdateScanStatus(i, Error);
        return;
      }
      if versions[i].scan != Pending { return; }
      versions := versions[i := versions[i].(scan := Scanning)];
      var _ := UpdateScanStatus(i, verdict);
    }

    /** `cleanup_failed_scans` over the rows it selected. */
    method CleanupFailedScans(stale: set<nat>)
      modifies this`versions
      ensures |versions| == |old(versions)| && status == old(status) && log == old(log)
      ensures forall k | 0 <= k < |versions| :: versions[k] ==
                if k in stale && old(versions)[k].scan == Error then old(versions)[k].(scan := Pending)
                else old(versions)[k]
    {
      for i := 0 to |versions|
        invariant |versions| == |old(versions)| && status == old(status) && log == old(log)
        invariant forall k | 0 <= k < |versions| :: versions[k] ==
                    if k < i && k in stale && old(versions)[k].scan == Error then old(versions)[k].(scan := Pending)
                    else old(versions)[k]
      {
        if i in stale && versions[i].scan == Error {
          versions := versions[i := versions[i].(scan := Pending)];
        }
      }
    }
  }
}
