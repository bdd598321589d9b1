/** What an asset and its versions are, told from the events that happened to it (backend/asset/models.py). */
module AssetHistories {
  import opened AssetReview
  import opened Results

  // ----- the rows

  /** What an event can say of a version: its number, its file, its scan, its stage. */
  datatype Topic = Birth | Content | Scan | Stage

  /** Event `e`, accepted in `st`, says something about version `i`. */
  predicate Touches(st: AssetState, e: Event, i: nat, topic: Topic) {
    Accepts(st, e)
    && match e
       case CreateVersion(_, _) => i == |st.versions|
       case UpdateVersion(j, upload) => j == i && upload.File? && topic in {Content, Scan}
       case StartScan(j) => j == i && topic == Scan
       case FinishScan(j, _) => j == i && topic == Scan
       case ResetFailedScan(j) => j == i && topic == Scan
       case Finalize(j) => j == i && topic == Stage
       case _ => false
  }

  predicate Carries(v: Version, upload: Upload) {
    match upload
    case NoFile => !v.hasFile && v.checksum == 0
    case File(checksum) => v.hasFile && v.checksum == checksum
  }

  /** What it says. */
  predicate Says(e: Event, topic: Topic, v: Version) {
    match topic
    case Birth => e.CreateVersion? && v.number == e.number
    case Content => (e.CreateVersion? || e.UpdateVersion?) && Carries(v, e.upload)
    case Scan => v.scan == (if e.StartScan? then Scanning else if e.FinishScan? then e.result else Pending)
    case Stage => v.status == if e.Finalize? then Finalized else Draft
  }

  predicate SameIn(topic: Topic, v: Version, w: Version) {
    match topic
    case Birth => v.number == w.number
    case Content => v.hasFile == w.hasFile && v.checksum == w.checksum
    case Scan => v.scan == w.scan
    case Stage => v.status == w.status
  }

  lemma RowStep(st: AssetState, e: Event, i: nat, topic: Topic)
    requires OnlyLastIsDraft(st.versions) && i < |Apply(st, e).versions|
    ensures if Touches(st, e, i, topic) then Says(e, topic, Apply(st, e).versions[i])
            else i < |st.versions| && SameIn(topic, Apply(st, e).versions[i], st.versions[i])
  {
  }

  /** Event number `m` said something about version `i`. */
  ghost predicate Touched(events: seq<Event>, m: nat, i: nat, topic: Topic)
    requires m < |events|
  {
    Touches(Run(NEW_ASSET, events[..m]), events[m], i, topic)
  }

  lemma TouchedBefore(events: seq<Event>, m: nat, i: nat, topic: Topic)
    requires m < |events| - 1
    ensures Touched(events[..|events| - 1], m, i, topic) == Touched(events, m, i, topic)
  {
    assert events[..|events| - 1][..m] == events[..m];
  }

  /** The last event that said something about version `i` is number `k`. */
  ghost predicate LastTouch(events: seq<Event>, i: nat, topic: Topic, k: nat) {
    && k < |events| && Touched(events, k, i, topic)
    && forall m: nat | k < m < |events| :: !Touched(events, m, i, topic)
  }

  lemma LaterSilence(events: seq<Event>, i: nat, topic: Topic, k: nat)
    requires events != [] && LastTouch(events[..|events| - 1], i, topic, k)
    requires !Touched(events, |events| - 1, i, topic)
    ensures LastTouch(events, i, topic, k)
  {
    TouchedBefore(events, k, i, topic);
    forall m: nat | k < m < |events| ensures !Touched(events, m, i, topic) {
      if m < |events| - 1 {
        TouchedBefore(events, m, i, topic);
      }
    }
  }

  /** A version is what the last events about it said. */
  lemma {:induction false} VersionIsAsSaid(events: seq<Event>, i: nat, topic: Topic) returns (k: nat)
    requires NumbersRise(NEW_ASSET, events) && i < |Run(NEW_ASSET, events).versions|
    ensures LastTouch(events, i, topic, k) && Says(events[k], topic, Run(NEW_ASSET, events).versions[i])
  {
    var front, e := events[..|events| - 1], events[|events| - 1];
    EveryAssetIsReachable(front);
    RowStep(Run(NEW_ASSET, front), e, i, topic);
    if Touches(Run(NEW_ASSET, front), e, i, topic) {
      k := |front|;
    } else {
      k := VersionIsAsSaid(front, i, topic);
      LaterSilence(events, i, topic, k);
    }
  }

  lemma OneLastTouch(events: seq<Event>, i: nat, topic: Topic, k: nat, m: nat)
    requires LastTouch(events, i, topic, k) && LastTouch(events, i, topic, m)
    ensures k == m
  {
  }

  /** Whoever says something about the file says something about the scan. */
  lemma ContentIsNoLater(events: seq<Event>, i: nat, u: nat, k: nat)
    requires LastTouch(events, i, Content, u) && LastTouch(events, i, Scan, k)
    ensures u <= k
  {
    assert Touched(events, u, i, Scan);
  }

  /** Event `k` is a clean verdict on the file that version `i` still has: its last upload came before. */
  ghost predicate CleanVerdict(events: seq<Event>, i: nat, k: nat) {
    && k < |events| && events[k] == FinishScan(i, Clean) && Accepts(Run(NEW_ASSET, events[..k]), events[k])
    && forall m: nat | k < m < |events| :: !Touched(events, m, i, Content)
  }

  lemma CleanHasVerdict(events: seq<Event>, i: nat) returns (k: nat)
    requires NumbersRise(NEW_ASSET, events) && i < |Run(NEW_ASSET, events).versions|
    requires Run(NEW_ASSET, events).versions[i].scan == Clean
    ensures CleanVerdict(events, i, k) && LastTouch(events, i, Scan, k)
  {
    k := VersionIsAsSaid(events, i, Scan);
    forall m: nat | k < m < |events| ensures !Touched(events, m, i, Content) {
      assert !Touched(events, m, i, Scan);
    }
  }

  lemma CleanStays(st: AssetState, e: Event, i: nat)
    requires OnlyLastIsDraft(st.versions) && i < |Apply(st, e).versions| && !Touches(st, e, i, Content)
    ensures i < |st.versions| && SameIn(Content, st.versions[i], Apply(st, e).versions[i])
    ensures st.versions[i].scan == Clean ==> Apply(st, e).versions[i].scan == Clean
  {
    RowStep(st, e, i, Content);
    RowStep(st, e, i, Scan);
  }

  lemma VerdictBefore(events: seq<Event>, i: nat, k: nat)
    requires CleanVerdict(events, i, k) && k < |events| - 1
    ensures CleanVerdict(events[..|events| - 1], i, k) && events[..|events| - 1][..k] == events[..k]
  {
    var front := events[..|events| - 1];
    assert front[..k] == events[..k];
    forall m: nat | k < m < |front| ensures !Touched(front, m, i, Content) {
      TouchedBefore(events, m, i, Content);
    }
  }

  lemma {:induction false} VerdictHolds(events: seq<Event>, i: nat, k: nat)
    requires NumbersRise(NEW_ASSET, events) && i < |Run(NEW_ASSET, events).versions| && CleanVerdict(events, i, k)
    ensures Run(NEW_ASSET, events).versions[i].scan == Clean
    ensures var before := Run(NEW_ASSET, events[..k]).versions;
            i < |before| && SameIn(Content, before[i], Run(NEW_ASSET, events).versions[i])
  {
    var front, e := events[..|events| - 1], events[|events| - 1];
    EveryAssetIsReachable(front);
    if k < |front| {
      assert Touched(events, |front|, i, Content) == Touches(Run(NEW_ASSET, front), e, i, Content);
      CleanStays(Run(NEW_ASSET, front), e, i);
      VerdictBefore(events, i, k);
      VerdictHolds(front, i, k);
    }
  }

  /**
   A version counts as clean exactly when its last upload was followed by a clean verdict; and the file that
   got the verdict is the one it still has.
   */
  lemma {:induction false} CleanExactly(events: seq<Event>, i: nat)
    requires NumbersRise(NEW_ASSET, events) && i < |Run(NEW_ASSET, events).versions|
    ensures var v := Run(NEW_ASSET, events).versions[i];
            && (v.scan == Clean <==> exists k: nat :: CleanVerdict(events, i, k))
            && forall k: nat | CleanVerdict(events, i, k) ::
                 var before := Run(NEW_ASSET, events[..k]).versions;
                 i < |before| && SameIn(Content, before[i], v)
  {
    var v := Run(NEW_ASSET, events).versions[i];
    if v.scan == Clean {
      var k := CleanHasVerdict(events, i);
    }
    forall k: nat | CleanVerdict(events, i, k)
      ensures var before := Run(NEW_ASSET, events[..k]).versions; i < |before| && SameIn(Content, before[i], v)
      ensures v.scan == Clean
    {
      VerdictHolds(events, i, k);
    }
  }

  /** The file of every finalized version got a clean verdict after it was uploaded. */
  lemma {:induction false} FinalizedWasScanned(events: seq<Event>, i: nat) returns (u: nat, k: nat)
    requires NumbersRise(NEW_ASSET, events) && i < |Run(NEW_ASSET, events).versions|
    requires Run(NEW_ASSET, events).versions[i].status == Finalized
    ensures LastTouch(events, i, Content, u) && Says(events[u], Content, Run(NEW_ASSET, events).versions[i])
    ensures u < k && CleanVerdict(events, i, k)
  {
    EveryAssetIsReachable(events);
    u := VersionIsAsSaid(events, i, Content);
    k := CleanHasVerdict(events, i);
    ContentIsNoLater(events, i, u, k);
  }

  /** The file that a version has is not accepted a second time. */
  lemma {:induction false} SameFileRefused(events: seq<Event>, i: nat, u: nat, upload: Upload)
    requires NumbersRise(NEW_ASSET, events) && i < |Run(NEW_ASSET, events).versions| && LastTouch(events, i, Content, u)
    requires upload.File? && (events[u].CreateVersion? || events[u].UpdateVersion?)
    ensures Accepts(Run(NEW_ASSET, events), UpdateVersion(i, upload)) <==>
            Run(NEW_ASSET, events).versions[i].status == Draft && events[u].upload != upload
  {
    var k := VersionIsAsSaid(events, i, Content);
    OneLastTouch(events, i, Content, u, k);
  }

  /** A file that replaces a clean one cannot be finalized unscanned. */
  lemma ReplacedFileIsPending(c: nat, d: nat)
    requires c != d
    ensures var events := [CreateVersion(1, File(c))] + [FinishScan(0, Clean)] + [UpdateVersion(0, File(d))];
            !Accepts(Run(NEW_ASSET, events), Finalize(0))
  {
    var scanned, v := [CreateVersion(1, File(c))] + [FinishScan(0, Clean)], Version(1, Draft, Clean, true, c);
    ScannedDraft(c);
    OneMoreEvent(scanned, AssetState(NotSubmitted, [v], []), UpdateVersion(0, File(d)),
                 AssetState(NotSubmitted, [v.(checksum := d, scan := Pending)], []));
  }

  /**
   What is accepted of a version, by what was last said about its stage and its scan: a draft can be changed,
   deleted, and finalized after a clean verdict; a scan starts after an upload or a reset, a verdict needs one
   of these or a start after the last verdict, and only an error is reset.
   */
  lemma {:induction false} VersionGuardsExactly(events: seq<Event>, i: nat, stage: nat, scan: nat, result: ScanStatus)
    requires NumbersRise(NEW_ASSET, events) && i < |Run(NEW_ASSET, events).versions|
    requires LastTouch(events, i, Stage, stage) && LastTouch(events, i, Scan, scan)
    requires result in {Clean, Infected, Error}
    ensures var st, draft, last := Run(NEW_ASSET, events), events[stage].CreateVersion?, events[scan];
            && (Accepts(st, UpdateVersion(i, NoFile)) <==> draft) && (Accepts(st, DeleteVersion(i)) <==> draft)
            && (Accepts(st, Finalize(i)) <==> draft && last == FinishScan(i, Clean))
            && (Accepts(st, StartScan(i)) <==> !last.StartScan? && !last.FinishScan?)
            && (Accepts(st, FinishScan(i, result)) <==> !last.FinishScan?)
            && (Accepts(st, ResetFailedScan(i)) <==> last == FinishScan(i, Error))
  {
    var k := VersionIsAsSaid(events, i, Stage);
    var m := VersionIsAsSaid(events, i, Scan);
    OneLastTouch(events, i, Stage, stage, k);
    OneLastTouch(events, i, Scan, scan, m);
    assert Touched(events, stage, i, Stage) && Touched(events, scan, i, Scan);
    GuardsOfRow(Run(NEW_ASSET, events), i, events[stage], events[scan], result);
  }

  lemma GuardsOfRow(st: AssetState, i: nat, staged: Event, last: Event, result: ScanStatus)
    requires i < |st.versions| && Says(staged, Stage, st.versions[i]) && Says(last, Scan, st.versions[i])
    requires staged.CreateVersion? || staged.Finalize?
    requires last.FinishScan? ==> last.i == i && last.result in {Clean, Infected, Error}
    requires result in {Clean, Infected, Error}
    ensures Accepts(st, UpdateVersion(i, NoFile)) <==> staged.CreateVersion?
    ensures Accepts(st, DeleteVersion(i)) <==> staged.CreateVersion?
    ensures Accepts(st, Finalize(i)) <==> staged.CreateVersion? && last == FinishScan(i, Clean)
    ensures Accepts(st, StartScan(i)) <==> !last.StartScan? && !last.FinishScan?
    ensures Accepts(st, FinishScan(i, result)) <==> !last.FinishScan?
    ensures Accepts(st, ResetFailedScan(i)) <==> last == FinishScan(i, Error)
  {
  }

  // ----- how many rows there are

  /** Accepted creations less accepted deletions. */
  function Balance(events: seq<Event>): int {
    if events == [] then 0
    else
      var front, e := events[..|events| - 1], events[|events| - 1];
      Balance(front) + if !Accepts(Run(NEW_ASSET, front), e) then 0
                       else if e.CreateVersion? then 1 else if e.DeleteVersion? then -1 else 0
  }

  lemma {:induction false} RowsAreBalance(events: seq<Event>)
    ensures |Run(NEW_ASSET, events).versions| == Balance(events)
  {
    if events != [] {
      RowsAreBalance(events[..|events| - 1]);
    }
  }

  // ----- the review

  /** The status that a review event leads to. */
  function Goal(e: Event): Option<Status> {
    match e
    case Submit => Some(PendingReview)
    case StartReview => Some(UnderReview)
    case Approve => Some(Approved)
    case Reject => Some(RevisionRequired)
    case AcknowledgeRejection => Some(NotSubmitted)
    case Archive => Some(Archived)
    case _ => None
  }

  /** Where the accepted review events led, in order. */
  function Goals(events: seq<Event>): seq<Status> {
    if events == [] then []
    else
      var front, e := events[..|events| - 1], events[|events| - 1];
      Goals(front) + if Accepts(Run(NEW_ASSET, front), e) && Goal(e).Some? then [Goal(e).value] else []
  }

  function Destinations(log: seq<Transition>): seq<Status> {
    if log == [] then [] else Destinations(log[..|log| - 1]) + [log[|log| - 1].to]
  }

  lemma ReviewStep(st: AssetState, e: Event, next: AssetState)
    requires next == Apply(st, e)
    ensures if Accepts(st, e) && Goal(e).Some?
            then next.status == Goal(e).value && Destinations(next.log) == Destinations(st.log) + [Goal(e).value]
            else next.status == st.status && next.log == st.log
  {
    if Accepts(st, e) && Goal(e).Some? {
      assert next.log[..|st.log|] == st.log;
    }
  }

  /** The status is where the last accepted review event led, and the log tells where each of them did. */
  lemma {:induction false} ReviewIsAsSaid(events: seq<Event>)
    ensures Destinations(Run(NEW_ASSET, events).log) == Goals(events)
    ensures Run(NEW_ASSET, events).status == if Goals(events) == [] then NotSubmitted
      else Goals(events)[|Goals(events)| - 1]
  {
    if events != [] {
      ReviewIsAsSaid(events[..|events| - 1]);
      ReviewStep(Run(NEW_ASSET, events[..|events| - 1]), events[|events| - 1], Run(NEW_ASSET, events));
    }
  }

  ghost predicate AllFinalized(versions: seq<Version>) {
    forall v | v in versions :: v.status == Finalized
  }

  /**
   Of an asset that is not in review, a new version can be drafted exactly when all versions are finalized, and
   it can be submitted exactly when there is one besides.
   */
  lemma {:induction false} GuardsExactly(events: seq<Event>, number: int, upload: Upload)
    requires NumbersRise(NEW_ASSET, events)
    ensures var st := Run(NEW_ASSET, events);
            && (Accepts(st, CreateVersion(number, upload)) <==>
                st.status in {NotSubmitted, RevisionRequired} && AllFinalized(st.versions))
            && (Accepts(st, Submit) <==>
                st.status in {NotSubmitted, RevisionRequired} && AllFinalized(st.versions) && st.versions != [])
  {
    EveryAssetIsReachable(events);
    GuardsOfSound(Run(NEW_ASSET, events).versions);
  }

  lemma GuardsOfSound(versions: seq<Version>)
    requires SoundVersions(versions)
    ensures AllFinalized(versions) <==> !HasDraft(versions)
    ensures !HasDraft(versions) && versions != [] ==> LatestIsFinalized(versions) && LatestIsClean(versions)
  {
    if versions != [] && !HasDraft(versions) {
      assert versions[Latest(versions)] in versions;
    }
  }
}
