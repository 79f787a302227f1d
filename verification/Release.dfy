/**
Publishing a release: every artefact is uploaded to a draft, every binary and the manifest
are downloaded again and verified, and only then the draft is published (tasks/github.py).
Each call to an outside tool may succeed, be refused, time out, break or be interrupted.
*/
module Release {
  import opened Wrappers
  import opened Verifier

  /** A call to an outside tool. */
  datatype Action = Upload(asset: string) | Download(asset: string) | Minisign(asset: string) | Publish | Alert | Delete

  /**
  Success with the bytes delivered, a non-zero exit, a timeout, a tool that cannot be started, any
  other exception, or an interrupt.
  */
  datatype Reply = Fine(bytes: Bytes) | Refused | TimedOut | Unavailable | Broken | Interrupted

  datatype Call = Call(action: Action, reply: Reply)

  /** How the guarded block ends: normally, in the verification error, in any other exception, or interrupted. */
  datatype Ending = Done | VerificationError | OtherError | Interruption

  /** The reply to the n-th call. */
  type World = nat -> Reply

  // ---- The steps of the guarded block ----

  datatype Step =
    | UploadAsset(asset: string)
    | CheckDigest(asset: string, expected: Option<string>)
    | CheckSignature(asset: string, signature: string)
    | PublishDraft

  datatype Progress = Progress(calls: seq<Call>, ending: Ending)

  /** An upload or the publishing: whatever is not an interrupt and not success is an ordinary exception. */
  function AfterCommand(reply: Reply): Ending {
    match reply
    case Fine(_) => Done
    case Interrupted => Interruption
    case _ => OtherError
  }

  /** A download that is refused or times out counts as a failed verification. */
  function AfterDownload(reply: Reply): Ending {
    match reply
    case Fine(_) => Done
    case Refused => VerificationError
    case TimedOut => VerificationError
    case Unavailable => OtherError
    case Broken => OtherError
    case Interrupted => Interruption
  }

  /**
  A signature tool that refuses, times out or cannot be started counts as a failed verification;
  another exception does not.
  */
  function AfterMinisign(reply: Reply, genuine: bool): Ending {
    match reply
    case Fine(_) => if genuine then Done else VerificationError
    case Refused => VerificationError
    case TimedOut => VerificationError
    case Unavailable => VerificationError
    case Broken => OtherError
    case Interrupted => Interruption
  }

  function Perform(crypto: Crypto, world: World, at: nat, step: Step): Progress {
    match step
    case UploadAsset(asset) => Progress([Call(Upload(asset), world(at))], AfterCommand(world(at)))
    case CheckDigest(asset, None) => Progress([], OtherError)   // the platform has no recorded digest
    case CheckDigest(asset, Some(expected)) =>
      var reply := world(at);
      var ending := AfterDownload(reply);
      Progress([Call(Download(asset), reply)],
               if ending == Done && HexDigest(crypto, reply.bytes) != expected then VerificationError else ending)
    case CheckSignature(asset, signature) =>
      var target, sig, tool := world(at), world(at + 1), world(at + 2);
      var first, second := Call(Download(asset), target), Call(Download(signature), sig);
      if AfterDownload(target) != Done then Progress([first], AfterDownload(target))
      else if AfterDownload(sig) != Done then Progress([first, second], AfterDownload(sig))
      else Progress([first, second, Call(Minisign(asset), tool)],
                    AfterMinisign(tool, crypto.verifies(target.bytes, sig.bytes)))
    case PublishDraft => Progress([Call(Publish, world(at))], AfterCommand(world(at)))
  }

  /** What performing a step does when a given number of calls precede it. */
  type Performer = (nat, Step) -> Progress

  function With(crypto: Crypto, world: World): Performer {
    (at: nat, step: Step) => Perform(crypto, world, at, step)
  }

  /** The steps in order, up to the first that does not end well. */
  function Execute(perform: Performer, at: nat, steps: seq<Step>): Progress
    decreases |steps|
  {
    if steps == [] then Progress([], Done)
    else
      var now := perform(at, steps[0]);
      Then(now, Execute(perform, at + |now.calls|, steps[1..]))
  }

  /** What comes next happens only if all went well so far. */
  function Then(now: Progress, later: Progress): Progress {
    if now.ending != Done then now else Progress(now.calls + later.calls, later.ending)
  }

  function Binary(platform: string): string {
    "luminosity-" + platform
  }

  function Archive(platform: string): string {
    Binary(platform) + ".debug.tar.gz"
  }

  function Signature(platform: string): string {
    Binary(platform) + ".minisig"
  }

  const MANIFEST := "manifest.json"
  const MANIFEST_SIGNATURE := "manifest.minisig"

  function UploadSteps(platforms: seq<string>): seq<Step> {
    if platforms == [] then []
    else
      [UploadAsset(Binary(platforms[0])), UploadAsset(Archive(platforms[0])), UploadAsset(Signature(platforms[0]))]
      + UploadSteps(platforms[1..])
  }

  function CheckSteps(platforms: seq<string>, hashes: map<string, string>): seq<Step> {
    if platforms == [] then []
    else
      [CheckDigest(Binary(platforms[0]), Recorded(platforms[0], hashes)),
       CheckSignature(Binary(platforms[0]), Signature(platforms[0]))]
      + CheckSteps(platforms[1..], hashes)
  }

  function Recorded(platform: string, hashes: map<string, string>): Option<string> {
    if platform in hashes then Some(hashes[platform]) else None
  }

  function Uploads(platforms: seq<string>): seq<Step> {
    UploadSteps(platforms) + [UploadAsset(MANIFEST), UploadAsset(MANIFEST_SIGNATURE)]
  }

  function Checks(platforms: seq<string>, hashes: map<string, string>): seq<Step> {
    CheckSteps(platforms, hashes) + [CheckSignature(MANIFEST, MANIFEST_SIGNATURE)]
  }

  function Plan(platforms: seq<string>, hashes: map<string, string>): seq<Step> {
    Uploads(platforms) + Checks(platforms, hashes) + [PublishDraft]
  }

  /** What follows the block: an alert, an attempt to delete the draft and its tag, or nothing. */
  function Aftermath(world: World, at: nat, ending: Ending): seq<Call> {
    match ending
    case VerificationError => [Call(Alert, world(at))]
    case OtherError => [Call(Delete, world(at))]
    case _ => []
  }

  datatype Finish = ChecksumsUnreadable | ArtefactsMissing | Ended(ending: Ending)

  /** The artefacts that have to exist before anything is uploaded. */
  function Required(platforms: seq<string>): set<string> {
    (set platform | platform in platforms :: Binary(platform))
    + (set platform | platform in platforms :: Archive(platform))
    + (set platform | platform in platforms :: Signature(platform))
    + {MANIFEST, MANIFEST_SIGNATURE}
  }

  function WithoutPrefix(digest: string): string {
    if "sha256:" <= digest then digest[7..] else digest
  }

  class Publisher {
    const crypto: Crypto
    const world: World
    var calls: seq<Call>

    constructor (crypto: Crypto, world: World)
      ensures this.crypto == crypto && this.world == world && calls == []
    {
      this.crypto := crypto;
      this.world := world;
      calls := [];
    }

    method Run(action: Action) returns (reply: Reply)
      modifies this
      ensures reply == world(|old(calls)|) && calls == old(calls) + [Call(action, reply)]
    {
      reply := world(|calls|);
      calls := calls + [Call(action, reply)];
    }

    method UploadReleaseAsset(asset: string) returns (ending: Ending)
      modifies this
      ensures Progress(calls, ending) == Continued(old(calls), Perform(crypto, world, |old(calls)|, UploadAsset(asset)))
    {
      var reply := Run(Upload(asset));
      ending := AfterCommand(reply);
    }

    method DownloadAndVerify(asset: string, expected: string) returns (ending: Ending)
      modifies this
      ensures Progress(calls, ending)
              == Continued(old(calls), Perform(crypto, world, |old(calls)|, CheckDigest(asset, Some(expected))))
    {
      var reply := Run(Download(asset));
      ending := AfterDownload(reply);
      if ending == Done {
        var actual := Sha256Hex(crypto, reply.bytes);
        if actual != expected {
          ending := VerificationError;
        }
      }
    }

    method DownloadAndVerifySignature(asset: string, signature: string) returns (ending: Ending)
      modifies this
      ensures Progress(calls, ending)
              == Continued(old(calls), Perform(crypto, world, |old(calls)|, CheckSignature(asset, signature)))
    {
      var target := Run(Download(asset));
      ending := AfterDownload(target);
      if ending != Done {
        return;
      }
      var sig := Run(Download(signature));
      ending := AfterDownload(sig);
      if ending != Done {
        return;
      }
      var tool := Run(Minisign(asset));
      ending := AfterMinisign(tool, crypto.verifies(target.bytes, sig.bytes));
    }

    /** The guarded block up to its first failure. */
    method TryBlock(platforms: seq<string>, hashes: map<string, string>) returns (ending: Ending)
      modifies this
      ensures Progress(calls, ending)
              == Continued(old(calls), Execute(With(crypto, world), |old(calls)|, Plan(platforms, hashes)))
    {
      ending := UploadAll(platforms, Checks(platforms, hashes) + [PublishDraft]);
      assert Plan(platforms, hashes) == Uploads(platforms) + (Checks(platforms, hashes) + [PublishDraft]);
      if ending == Done {
        ending := CheckAndPublish(platforms, hashes);
      }
    }

    method UploadAll(platforms: seq<string>, ghost rest: seq<Step>) returns (ending: Ending)
      modifies this
      ensures var whole := Continued(old(calls), Execute(With(crypto, world), |old(calls)|, Uploads(platforms) + rest));
              if ending == Done then IsAhead(With(crypto, world), calls, rest, whole)
              else whole == Progress(calls, ending)
    {
      ghost var whole := Continued(calls, Execute(With(crypto, world), |calls|, Uploads(platforms) + rest));
      ghost var manifests := [UploadAsset(MANIFEST)] + ([UploadAsset(MANIFEST_SIGNATURE)] + rest);
      assert Uploads(platforms) + rest == UploadSteps(platforms) + manifests;
      var i := 0;
      while i < |platforms|
        invariant i <= |platforms|
        invariant IsAhead(With(crypto, world), calls, UploadSteps(platforms[i..]) + manifests, whole)
      {
        ending := UploadPlatform(platforms, i, manifests, whole);
        if ending != Done {
          return;
        }
        i := i + 1;
      }
      assert UploadSteps(platforms[i..]) + manifests == manifests;
      Advance(With(crypto, world), calls, UploadAsset(MANIFEST), [UploadAsset(MANIFEST_SIGNATURE)] + rest, whole);
      ending := UploadReleaseAsset(MANIFEST);
      if ending == Done {
        Advance(With(crypto, world), calls, UploadAsset(MANIFEST_SIGNATURE), rest, whole);
        ending := UploadReleaseAsset(MANIFEST_SIGNATURE);
      }
    }

    /** One turn of the upload loop: binary, archive, signature. */
    method UploadPlatform(platforms: seq<string>, i: nat, ghost rest: seq<Step>, ghost whole: Progress)
        returns (ending: Ending)
      requires i < |platforms| && IsAhead(With(crypto, world), calls, UploadSteps(platforms[i..]) + rest, whole)
      modifies this
      ensures if ending == Done then IsAhead(With(crypto, world), calls, UploadSteps(platforms[i + 1..]) + rest, whole)
              else whole == Progress(calls, ending)
    {
      ghost var later := UploadSteps(platforms[i + 1..]) + rest;
      ghost var signature := [UploadAsset(Signature(platforms[i]))] + later;
      UploadStepsFrom(platforms, i, rest);
      ghost var archive := [UploadAsset(Archive(platforms[i]))] + signature;
      Advance(With(crypto, world), calls, UploadAsset(Binary(platforms[i])), archive, whole);
      ending := UploadReleaseAsset(Binary(platforms[i]));
      if ending != Done {
        return;
      }
      Advance(With(crypto, world), calls, UploadAsset(Archive(platforms[i])), signature, whole);
      ending := UploadReleaseAsset(Archive(platforms[i]));
      if ending != Done {
        return;
      }
      Advance(With(crypto, world), calls, UploadAsset(Signature(platforms[i])), later, whole);
      ending := UploadReleaseAsset(Signature(platforms[i]));
    }

    method CheckAndPublish(platforms: seq<string>, hashes: map<string, string>) returns (ending: Ending)
      modifies this
      ensures Progress(calls, ending)
              == Continued(old(calls),
                           Execute(With(crypto, world), |old(calls)|, Checks(platforms, hashes) + [PublishDraft]))
    {
      ghost var whole := Continued(calls,
                                   Execute(With(crypto, world), |calls|, Checks(platforms, hashes) + [PublishDraft]));
      ghost var manifest := [CheckSignature(MANIFEST, MANIFEST_SIGNATURE)] + [PublishDraft];
      assert Checks(platforms, hashes) + [PublishDraft] == CheckSteps(platforms, hashes) + manifest;
      var i := 0;
      while i < |platforms|
        invariant i <= |platforms|
        invariant IsAhead(With(crypto, world), calls, CheckSteps(platforms[i..], hashes) + manifest, whole)
      {
        ending := CheckPlatform(platforms, hashes, i, manifest, whole);
        if ending != Done {
          return;
        }
        i := i + 1;
      }
      assert CheckSteps(platforms[i..], hashes) + manifest == manifest;
      ending := CheckManifestAndPublish(whole);
    }

    /** After the loop: the manifest's signature, then the publishing. */
    method CheckManifestAndPublish(ghost whole: Progress) returns (ending: Ending)
      requires var rest := [CheckSignature(MANIFEST, MANIFEST_SIGNATURE)] + [PublishDraft];
               IsAhead(With(crypto, world), calls, rest, whole)
      modifies this
      ensures whole == Progress(calls, ending)
    {
      Advance(With(crypto, world), calls, CheckSignature(MANIFEST, MANIFEST_SIGNATURE), [PublishDraft], whole);
      ending := DownloadAndVerifySignature(MANIFEST, MANIFEST_SIGNATURE);
      if ending == Done {
        assert [PublishDraft] == [PublishDraft] + [];
        Advance(With(crypto, world), calls, PublishDraft, [], whole);
        var reply := Run(Publish);
        ending := AfterCommand(reply);
      }
    }

    /** One turn of the verification loop: digest, then signature. */
    method CheckPlatform(platforms: seq<string>, hashes: map<string, string>, i: nat, ghost rest: seq<Step>,
                         ghost whole: Progress)
        returns (ending: Ending)
      requires i < |platforms| && IsAhead(With(crypto, world), calls, CheckSteps(platforms[i..], hashes) + rest, whole)
      modifies this
      ensures if ending == Done
              then IsAhead(With(crypto, world), calls, CheckSteps(platforms[i + 1..], hashes) + rest, whole)
              else whole == Progress(calls, ending)
    {
      var platform := platforms[i];
      ghost var later := CheckSteps(platforms[i + 1..], hashes) + rest;
      ghost var signed := CheckSignature(Binary(platform), Signature(platform));
      CheckStepsFrom(platforms, hashes, i, rest);
      ghost var digest := CheckDigest(Binary(platform), Recorded(platform, hashes));
      Advance(With(crypto, world), calls, digest, [signed] + later, whole);
      if platform !in hashes {
        return OtherError;
      }
      ending := DownloadAndVerify(Binary(platform), hashes[platform]);
      if ending == Done {
        Advance(With(crypto, world), calls, signed, later, whole);
        ending := DownloadAndVerifySignature(Binary(platform), Signature(platform));
      }
    }

    /** `checksums` is what the checksum file records, if it can be read; `artefacts` are the files that exist. */
    method UploadAndVerify(platforms: seq<string>, checksums: Option<map<string, string>>, artefacts: set<string>)
        returns (finish: Finish)
      modifies this
      ensures finish.ChecksumsUnreadable? <==> checksums.None?
      ensures finish.ArtefactsMissing? <==> checksums.Some? && !(Required(platforms) <= artefacts)
      ensures checksums.Some? ==>
                (finish.ArtefactsMissing?
                 <==> exists asset :: IsPlannedUpload(platforms, checksums.value, asset) && asset !in artefacts)
      ensures !finish.Ended? ==> calls == old(calls)
      ensures finish.Ended? ==>
                Progress(calls, finish.ending) == Whole(crypto, world, old(calls), platforms, checksums.value)
    {
      if checksums.None? {
        return ChecksumsUnreadable;
      }
      var hashes := map platform | platform in checksums.value :: WithoutPrefix(checksums.value[platform]);
      PlannedIsRequired(platforms, checksums.value);
      if !(Required(platforms) <= artefacts) {
        return ArtefactsMissing;
      }
      var ending := TryBlock(platforms, hashes);
      if ending == VerificationError {
        var _ := Run(Alert);
      } else if ending == OtherError {
        var _ := Run(Delete);
      }
      finish := Ended(ending);
    }
  }

  // ---- What the run uploads has to be there, and what has to be there is uploaded ----

  predicate IsPlannedUpload(platforms: seq<string>, checksums: map<string, string>, asset: string) {
    UploadAsset(asset) in Plan(platforms, Hashes(checksums))
  }

  lemma {:induction false} UploadsOf(platforms: seq<string>, asset: string)
    ensures UploadAsset(asset) in UploadSteps(platforms)
            <==> exists p :: p in platforms && (asset == Binary(p) || asset == Archive(p) || asset == Signature(p))
  {
    if platforms != [] {
      UploadsOf(platforms[1..], asset);
      var steps := UploadSteps(platforms);
      assert steps == [steps[0], steps[1], steps[2]] + UploadSteps(platforms[1..]);
      assert forall p :: p in platforms <==> p == platforms[0] || p in platforms[1..];
    }
  }

  lemma {:induction false} ChecksUploadNothing(platforms: seq<string>, hashes: map<string, string>, asset: string)
    ensures UploadAsset(asset) !in CheckSteps(platforms, hashes)
  {
    if platforms != [] {
      ChecksUploadNothing(platforms[1..], hashes, asset);
    }
  }

  /** The artefacts that must exist beforehand are exactly those the run would upload. */
  lemma PlannedIsRequired(platforms: seq<string>, checksums: map<string, string>)
    ensures forall asset :: IsPlannedUpload(platforms, checksums, asset) <==> asset in Required(platforms)
  {
    forall asset ensures IsPlannedUpload(platforms, checksums, asset) <==> asset in Required(platforms) {
      UploadsOf(platforms, asset);
      ChecksUploadNothing(platforms, Hashes(checksums), asset);
      PlannedIn(platforms, Hashes(checksums), asset);
    }
  }

  lemma PlannedIn(platforms: seq<string>, hashes: map<string, string>, asset: string)
    ensures UploadAsset(asset) in Plan(platforms, hashes)
            <==> || UploadAsset(asset) in UploadSteps(platforms) || asset == MANIFEST || asset == MANIFEST_SIGNATURE
                 || UploadAsset(asset) in CheckSteps(platforms, hashes)
  {
    var ends := [CheckSignature(MANIFEST, MANIFEST_SIGNATURE)];
    assert Plan(platforms, hashes)
        == UploadSteps(platforms) + [UploadAsset(MANIFEST), UploadAsset(MANIFEST_SIGNATURE)]
           + (CheckSteps(platforms, hashes) + ends) + [PublishDraft];
  }

  /** A recorded digest counts without its `sha256:`, and one recorded without it as it is. */
  lemma RecordedDigest(checksums: map<string, string>, platform: string)
    requires platform in checksums
    ensures forall digest :: checksums[platform] == "sha256:" + digest
              ==> Recorded(platform, Hashes(checksums)) == Some(digest)
    ensures !("sha256:" <= checksums[platform]) ==> Recorded(platform, Hashes(checksums)) == Some(checksums[platform])
  {
  }

  // ---- When a run publishes ----

  /** The number of calls a step makes when nothing goes wrong. */
  function CallsOf(step: Step): nat {
    if step.CheckSignature? then 3 else 1
  }

  /** Every call of the step is answered, and what was to be checked holds. */
  predicate Succeeds(crypto: Crypto, world: World, at: nat, step: Step) {
    match step
    case UploadAsset(_) => world(at).Fine?
    case CheckDigest(_, expected) => world(at).Fine? && expected == Some(HexDigest(crypto, world(at).bytes))
    case CheckSignature(_, _) =>
      && world(at).Fine? && world(at + 1).Fine? && world(at + 2).Fine?
      && crypto.verifies(world(at).bytes, world(at + 1).bytes)
    case PublishDraft => world(at).Fine?
  }

  predicate AllSucceed(crypto: Crypto, world: World, at: nat, steps: seq<Step>)
    decreases |steps|
  {
    steps == []
    || (Succeeds(crypto, world, at, steps[0]) && AllSucceed(crypto, world, at + CallsOf(steps[0]), steps[1..]))
  }

  lemma PerformDoneIff(crypto: Crypto, world: World, at: nat, step: Step)
    ensures var now := Perform(crypto, world, at, step);
            (now.ending == Done <==> Succeeds(crypto, world, at, step))
            && (now.ending == Done ==> |now.calls| == CallsOf(step))
  {
  }

  lemma {:induction false} ExecuteDoneIff(crypto: Crypto, world: World, at: nat, steps: seq<Step>)
    ensures Execute(With(crypto, world), at, steps).ending == Done <==> AllSucceed(crypto, world, at, steps)
    decreases |steps|
  {
    if steps != [] {
      PerformDoneIff(crypto, world, at, steps[0]);
      ExecuteDoneIff(crypto, world, at + CallsOf(steps[0]), steps[1..]);
    }
  }

  /** A run ends with the release published if and only if every step of the plan succeeds, each in its turn. */
  lemma PublishesIff(crypto: Crypto, world: World, platforms: seq<string>, checksums: map<string, string>)
    ensures EndsPublished(Whole(crypto, world, [], platforms, checksums).calls)
            <==> AllSucceed(crypto, world, 0, Plan(platforms, Hashes(checksums)))
  {
    EveryRunIsAccountable(crypto, world, platforms, checksums);
    ExecuteDoneIff(crypto, world, 0, Plan(platforms, Hashes(checksums)));
  }

  /** With these calls made, running the remaining steps completes the whole. */
  ghost predicate IsAhead(perform: Performer, calls: seq<Call>, rest: seq<Step>, whole: Progress) {
    whole == Continued(calls, Execute(perform, |calls|, rest))
  }

  lemma Advance(perform: Performer, calls: seq<Call>, step: Step, rest: seq<Step>, whole: Progress)
    requires IsAhead(perform, calls, [step] + rest, whole)
    ensures var now := perform(|calls|, step);
            if now.ending == Done then IsAhead(perform, calls + now.calls, rest, whole)
            else whole == Continued(calls, now)
  {
    var now := perform(|calls|, step);
    assert ([step] + rest)[1..] == rest;
    if now.ending == Done {
      var later := Execute(perform, |calls| + |now.calls|, rest);
      assert calls + (now.calls + later.calls) == calls + now.calls + later.calls;
    }
  }

  function Continued(calls: seq<Call>, progress: Progress): Progress {
    Progress(calls + progress.calls, progress.ending)
  }

  function Hashes(checksums: map<string, string>): map<string, string> {
    map platform | platform in checksums :: WithoutPrefix(checksums[platform])
  }

  /** The guarded block and what follows it. */
  function Whole(crypto: Crypto, world: World, calls: seq<Call>, platforms: seq<string>,
                 checksums: map<string, string>): Progress
  {
    var block := Continued(calls, Execute(With(crypto, world), |calls|, Plan(platforms, Hashes(checksums))));
    Progress(block.calls + Aftermath(world, |block.calls|, block.ending), block.ending)
  }

  lemma UploadStepsFrom(platforms: seq<string>, i: nat, rest: seq<Step>)
    requires i < |platforms|
    ensures UploadSteps(platforms[i..]) + rest
            == [UploadAsset(Binary(platforms[i]))] + ([UploadAsset(Archive(platforms[i]))]
               + ([UploadAsset(Signature(platforms[i]))] + (UploadSteps(platforms[i + 1..]) + rest)))
  {
    assert platforms[i..][1..] == platforms[i + 1..];
  }

  lemma CheckStepsFrom(platforms: seq<string>, hashes: map<string, string>, i: nat, rest: seq<Step>)
    requires i < |platforms|
    ensures CheckSteps(platforms[i..], hashes) + rest
            == [CheckDigest(Binary(platforms[i]), Recorded(platforms[i], hashes))]
               + ([CheckSignature(Binary(platforms[i]), Signature(platforms[i]))]
                  + (CheckSteps(platforms[i + 1..], hashes) + rest))
  {
    assert platforms[i..][1..] == platforms[i + 1..];
  }

  // ---- What a log of calls shows ----

  ghost predicate ShowsUpload(calls: seq<Call>, asset: string) {
    exists call :: call in calls && call.action == Upload(asset) && call.reply.Fine?
  }

  ghost predicate ShowsDigest(crypto: Crypto, calls: seq<Call>, asset: string, digest: string) {
    exists call ::
      && call in calls && call.action == Download(asset) && call.reply.Fine?
      && HexDigest(crypto, call.reply.bytes) == digest
  }

  /** The asset and its signature are downloaded one after the other and handed to the signature tool. */
  predicate IsSignatureCheck(crypto: Crypto, calls: seq<Call>, j: nat, asset: string, signature: string) {
    && j + 2 < |calls|
    && calls[j].action == Download(asset) && calls[j + 1].action == Download(signature)
    && calls[j + 2].action == Minisign(asset)
    && calls[j].reply.Fine? && calls[j + 1].reply.Fine? && calls[j + 2].reply.Fine?
    && crypto.verifies(calls[j].reply.bytes, calls[j + 1].reply.bytes)
  }

  ghost predicate ShowsSignature(crypto: Crypto, calls: seq<Call>, asset: string, signature: string) {
    exists j: nat :: IsSignatureCheck(crypto, calls, j, asset, signature)
  }

  ghost predicate Shows(crypto: Crypto, calls: seq<Call>, step: Step) {
    match step
    case UploadAsset(asset) => ShowsUpload(calls, asset)
    case CheckDigest(asset, expected) => expected.Some? && ShowsDigest(crypto, calls, asset, expected.value)
    case CheckSignature(asset, signature) => ShowsSignature(crypto, calls, asset, signature)
    case PublishDraft => true
  }

  lemma ShowsMore(crypto: Crypto, before: seq<Call>, calls: seq<Call>, after: seq<Call>, step: Step)
    requires Shows(crypto, calls, step)
    ensures Shows(crypto, before + calls + after, step)
  {
    if step.CheckSignature? {
      var j: nat :| IsSignatureCheck(crypto, calls, j, step.asset, step.signature);
      assert IsSignatureCheck(crypto, before + calls + after, |before| + j, step.asset, step.signature);
    }
  }

  lemma PerformedShows(crypto: Crypto, world: World, at: nat, step: Step)
    requires Perform(crypto, world, at, step).ending == Done
    ensures Shows(crypto, Perform(crypto, world, at, step).calls, step)
  {
    var calls := Perform(crypto, world, at, step).calls;
    if step.CheckSignature? {
      assert IsSignatureCheck(crypto, calls, 0, step.asset, step.signature);
    } else {
      assert calls[0] in calls;
    }
  }

  lemma {:induction false} ExecutedShows(crypto: Crypto, perform: Performer, at: nat, steps: seq<Step>, step: Step)
    requires forall n, x :: perform(n, x).ending == Done ==> Shows(crypto, perform(n, x).calls, x)
    requires Execute(perform, at, steps).ending == Done && step in steps
    ensures Shows(crypto, Execute(perform, at, steps).calls, step)
    decreases |steps|
  {
    var now := perform(at, steps[0]);
    var later := Execute(perform, at + |now.calls|, steps[1..]);
    if step == steps[0] {
      ShowsMore(crypto, [], now.calls, later.calls, step);
      assert [] + now.calls + later.calls == now.calls + later.calls;
    } else {
      ExecutedShows(crypto, perform, at + |now.calls|, steps[1..], step);
      ShowsMore(crypto, now.calls, later.calls, [], step);
      assert now.calls + later.calls + [] == now.calls + later.calls;
    }
  }

  lemma AllExecutedShow(crypto: Crypto, world: World, at: nat, steps: seq<Step>)
    requires Execute(With(crypto, world), at, steps).ending == Done
    ensures forall step | step in steps :: Shows(crypto, Execute(With(crypto, world), at, steps).calls, step)
  {
    var perform := With(crypto, world);
    forall n: nat, x: Step ensures perform(n, x).ending == Done ==> Shows(crypto, perform(n, x).calls, x) {
      if perform(n, x).ending == Done {
        PerformedShows(crypto, world, n, x);
      }
    }
    forall step | step in steps ensures Shows(crypto, Execute(perform, at, steps).calls, step) {
      ExecutedShows(crypto, perform, at, steps, step);
    }
  }

  /** Sequencing is associative; what follows a failure does not matter. */
  lemma ThenAssociates(a: Progress, b: Progress, c: Progress, d: Progress)
    requires a.ending == Done && b.ending == Done ==> c == d
    ensures Then(a, Then(b, c)) == Then(Then(a, b), d)
  {
    assert a.calls + (b.calls + c.calls) == (a.calls + b.calls) + c.calls;
  }

  lemma ExecuteFirst(perform: Performer, at: nat, step: Step, rest: seq<Step>)
    ensures var now := perform(at, step);
            Execute(perform, at, [step] + rest) == Then(now, Execute(perform, at + |now.calls|, rest))
  {
    assert ([step] + rest)[1..] == rest;
  }

  lemma HeadFirst(first: seq<Step>, second: seq<Step>)
    requires first != []
    ensures first + second == [first[0]] + (first[1..] + second) && first == [first[0]] + first[1..]
  {
  }

  /** Running two lists of steps is running the first and, if it ends well, the second. */
  lemma {:induction false} ExecuteAppend(perform: Performer, at: nat, first: seq<Step>, second: seq<Step>)
    ensures Execute(perform, at, first + second) == Both(perform, at, Execute(perform, at, first), second)
    decreases |first|
  {
    if first == [] {
      assert first + second == second;
      ThenAfterNothing(Execute(perform, at, second));
    } else {
      var now := perform(at, first[0]);
      ExecuteAppend(perform, at + |now.calls|, first[1..], second);
      HeadFirst(first, second);
      ExecuteFirst(perform, at, first[0], first[1..] + second);
      BothAssociates(perform, at, now, Execute(perform, at + |now.calls|, first[1..]), second);
    }
  }

  /** Progress already made, continued with further steps. */
  function Both(perform: Performer, at: nat, now: Progress, steps: seq<Step>): Progress {
    Then(now, Execute(perform, at + |now.calls|, steps))
  }

  lemma BothAssociates(perform: Performer, at: nat, now: Progress, middle: Progress, steps: seq<Step>)
    ensures Then(now, Both(perform, at + |now.calls|, middle, steps)) == Both(perform, at, Then(now, middle), steps)
  {
    if now.ending == Done {
      assert |Then(now, middle).calls| == |now.calls| + |middle.calls|;
      var last := Execute(perform, at + |now.calls| + |middle.calls|, steps);
      ThenAssociates(now, middle, last, last);
    }
  }

  lemma ThenAfterNothing(progress: Progress)
    ensures Then(Progress([], Done), progress) == progress
  {
    assert [] + progress.calls == progress.calls;
  }

  lemma ExecuteOne(perform: Performer, at: nat, step: Step)
    ensures Execute(perform, at, [step]) == perform(at, step)
  {
    assert [step][1..] == [];
    assert perform(at, step).calls + [] == perform(at, step).calls;
  }

  predicate IsOutside(action: Action) {
    action.Publish? || action.Alert? || action.Delete?
  }

  predicate AreTransfers(calls: seq<Call>) {
    forall i | 0 <= i < |calls| :: !IsOutside(calls[i].action)
  }

  /** Uploading and checking neither publishes nor deletes anything. */
  lemma {:induction false} OnlyTransfers(perform: Performer, at: nat, steps: seq<Step>)
    requires forall n, x :: x != PublishDraft ==> AreTransfers(perform(n, x).calls)
    requires PublishDraft !in steps
    ensures AreTransfers(Execute(perform, at, steps).calls)
    decreases |steps|
  {
    if steps != [] {
      var now := perform(at, steps[0]);
      assert steps[0] != PublishDraft;
      OnlyTransfers(perform, at + |now.calls|, steps[1..]);
    }
  }

  lemma {:induction false} PlanSteps(platforms: seq<string>, hashes: map<string, string>)
    ensures PublishDraft !in UploadSteps(platforms) && PublishDraft !in CheckSteps(platforms, hashes)
    ensures forall p | p in platforms ::
              && UploadAsset(Binary(p)) in UploadSteps(platforms) && UploadAsset(Archive(p)) in UploadSteps(platforms)
              && UploadAsset(Signature(p)) in UploadSteps(platforms)
              && CheckDigest(Binary(p), Recorded(p, hashes)) in CheckSteps(platforms, hashes)
              && CheckSignature(Binary(p), Signature(p)) in CheckSteps(platforms, hashes)
  {
    if platforms != [] {
      PlanSteps(platforms[1..], hashes);
      var uploads, checks := UploadSteps(platforms), CheckSteps(platforms, hashes);
      assert uploads[0] in uploads && uploads[1] in uploads && uploads[2] in uploads;
      assert checks[0] in checks && checks[1] in checks;
      assert uploads[3..] == UploadSteps(platforms[1..]) && checks[2..] == CheckSteps(platforms[1..], hashes);
    }
  }

  // ---- Every run, whatever the tools and the network do ----

  ghost predicate IsUploaded(calls: seq<Call>, platform: string) {
    && ShowsUpload(calls, Binary(platform)) && ShowsUpload(calls, Archive(platform))
    && ShowsUpload(calls, Signature(platform))
  }

  ghost predicate IsChecked(crypto: Crypto, calls: seq<Call>, platform: string, hashes: map<string, string>) {
    && platform in hashes && ShowsDigest(crypto, calls, Binary(platform), hashes[platform])
    && ShowsSignature(crypto, calls, Binary(platform), Signature(platform))
  }

  /** The uploads, the checks and the publishing, each as if what precedes it had ended well. */
  datatype Phases = Phases(uploads: Progress, checks: Progress, publishing: Progress)

  function PhasesOf(perform: Performer, platforms: seq<string>, hashes: map<string, string>): Phases {
    var uploads := Execute(perform, 0, Uploads(platforms));
    var checks := Execute(perform, |uploads.calls|, Checks(platforms, hashes));
    Phases(uploads, checks, perform(|uploads.calls| + |checks.calls|, PublishDraft))
  }

  lemma BlockIsPhases(perform: Performer, platforms: seq<string>, hashes: map<string, string>)
    ensures var phases := PhasesOf(perform, platforms, hashes);
            Execute(perform, 0, Plan(platforms, hashes)) == Then(phases.uploads, Then(phases.checks, phases.publishing))
  {
    var uploads, checks := Uploads(platforms), Checks(platforms, hashes);
    assert Plan(platforms, hashes) == uploads + (checks + [PublishDraft]);
    ExecuteThree(perform, uploads, checks, [PublishDraft]);
    var before := |Execute(perform, 0, uploads).calls|;
    ExecuteOne(perform, before + |Execute(perform, before, checks).calls|, PublishDraft);
  }

  lemma ExecuteThree(perform: Performer, first: seq<Step>, second: seq<Step>, third: seq<Step>)
    ensures var before := Execute(perform, 0, first);
            var middle := Execute(perform, |before.calls|, second);
            Execute(perform, 0, first + (second + third))
            == Then(before, Both(perform, |before.calls|, middle, third))
  {
    ExecuteAppend(perform, 0, first, second + third);
    ExecuteAppend(perform, |Execute(perform, 0, first).calls|, second, third);
  }

  lemma PhasesTransfer(crypto: Crypto, world: World, platforms: seq<string>, hashes: map<string, string>)
    ensures var phases := PhasesOf(With(crypto, world), platforms, hashes);
            AreTransfers(phases.uploads.calls) && AreTransfers(phases.checks.calls)
  {
    var perform := With(crypto, world);
    forall n: nat, x: Step | x != PublishDraft ensures AreTransfers(perform(n, x).calls) {
      PerformTransfers(crypto, world, n, x);
    }
    PlanSteps(platforms, hashes);
    OnlyTransfers(perform, 0, Uploads(platforms));
    OnlyTransfers(perform, |Execute(perform, 0, Uploads(platforms)).calls|, Checks(platforms, hashes));
  }

  lemma PerformTransfers(crypto: Crypto, world: World, at: nat, step: Step)
    requires step != PublishDraft
    ensures AreTransfers(Perform(crypto, world, at, step).calls)
  {
  }

  /** The whole run: the phases, then the aftermath. */
  function Log(phases: Phases, world: World): Progress {
    var block := Then(phases.uploads, Then(phases.checks, phases.publishing));
    Progress(block.calls + Aftermath(world, |block.calls|, block.ending), block.ending)
  }

  lemma RunIsLog(crypto: Crypto, world: World, platforms: seq<string>, checksums: map<string, string>)
    ensures Whole(crypto, world, [], platforms, checksums)
            == Log(PhasesOf(With(crypto, world), platforms, Hashes(checksums)), world)
  {
    BlockIsPhases(With(crypto, world), platforms, Hashes(checksums));
    var block := Execute(With(crypto, world), 0, Plan(platforms, Hashes(checksums)));
    assert [] + block.calls == block.calls;
  }

  /**
  A release is published only after everything was uploaded, and after that every binary
  came back with its recorded digest and a signature that verifies it, and the manifest
  came back with one that verifies it.
  */
  lemma PublishedIsVerified(crypto: Crypto, world: World, platforms: seq<string>, checksums: map<string, string>,
                            i: nat)
      returns (m: nat)
    requires var calls := Whole(crypto, world, [], platforms, checksums).calls;
             i < |calls| && calls[i].action == Publish
    ensures var calls, hashes := Whole(crypto, world, [], platforms, checksums).calls, Hashes(checksums);
            && m <= i
            && (forall p | p in platforms :: IsUploaded(calls[..m], p) && IsChecked(crypto, calls[m..i], p, hashes))
            && ShowsUpload(calls[..m], MANIFEST) && ShowsUpload(calls[..m], MANIFEST_SIGNATURE)
            && ShowsSignature(crypto, calls[m..i], MANIFEST, MANIFEST_SIGNATURE)
  {
    var calls, hashes := Whole(crypto, world, [], platforms, checksums).calls, Hashes(checksums);
    var phases := PhasesOf(With(crypto, world), platforms, hashes);
    var uploads, checks := Uploads(platforms), Checks(platforms, hashes);
    RunIsLog(crypto, world, platforms, checksums);
    PhasesTransfer(crypto, world, platforms, hashes);
    PublishIsThird(phases, world, i);
    m := |phases.uploads.calls|;
    AllExecutedShow(crypto, world, 0, uploads);
    AllExecutedShow(crypto, world, m, checks);
    AllShown(crypto, calls[..m], calls[m..i], platforms, hashes);
  }

  /** Publishing comes after uploads and checks that ended well. */
  lemma PublishIsThird(phases: Phases, world: World, i: nat)
    requires AreTransfers(phases.uploads.calls) && AreTransfers(phases.checks.calls) && |phases.publishing.calls| == 1
    requires i < |Log(phases, world).calls| && Log(phases, world).calls[i].action == Publish
    ensures phases.uploads.ending == Done && phases.checks.ending == Done
    ensures var calls, m := Log(phases, world).calls, |phases.uploads.calls|;
            i == m + |phases.checks.calls| && calls[..m] == phases.uploads.calls && calls[m..i] == phases.checks.calls
  {
  }

  lemma AllShown(crypto: Crypto, first: seq<Call>, second: seq<Call>, platforms: seq<string>,
                 hashes: map<string, string>)
    requires forall step | step in Uploads(platforms) :: Shows(crypto, first, step)
    requires forall step | step in Checks(platforms, hashes) :: Shows(crypto, second, step)
    ensures forall p | p in platforms :: IsUploaded(first, p) && IsChecked(crypto, second, p, hashes)
    ensures ShowsUpload(first, MANIFEST) && ShowsUpload(first, MANIFEST_SIGNATURE)
    ensures ShowsSignature(crypto, second, MANIFEST, MANIFEST_SIGNATURE)
  {
    PlanSteps(platforms, hashes);
    var uploads, checks := Uploads(platforms), Checks(platforms, hashes);
    assert uploads[|uploads| - 2] == UploadAsset(MANIFEST) && uploads[|uploads| - 1] == UploadAsset(MANIFEST_SIGNATURE);
    assert checks[|checks| - 1] == CheckSignature(MANIFEST, MANIFEST_SIGNATURE);
    assert Shows(crypto, first, uploads[|uploads| - 2]) && Shows(crypto, first, uploads[|uploads| - 1]);
    assert Shows(crypto, second, checks[|checks| - 1]);
    forall p | p in platforms ensures IsUploaded(first, p) && IsChecked(crypto, second, p, hashes) {
      assert Shows(crypto, first, UploadAsset(Binary(p))) && Shows(crypto, first, UploadAsset(Archive(p)));
      assert Shows(crypto, first, UploadAsset(Signature(p)));
      assert Shows(crypto, second, CheckDigest(Binary(p), Recorded(p, hashes)));
      assert Shows(crypto, second, CheckSignature(Binary(p), Signature(p)));
    }
  }

  ghost predicate Issues(calls: seq<Call>, action: Action) {
    exists i :: 0 <= i < |calls| && calls[i].action == action
  }

  ghost predicate IsOnly(calls: seq<Call>, action: Action, i: int) {
    0 <= i < |calls| && calls[i].action == action && forall j | 0 <= j < |calls| && j != i :: calls[j].action != action
  }

  /** The publishing succeeded: it was the last call of all. */
  predicate EndsPublished(calls: seq<Call>) {
    calls != [] && calls[|calls| - 1].action == Publish && calls[|calls| - 1].reply.Fine?
  }

  /** What the log and the way the run ended say about each other. */
  ghost predicate IsAccountable(run: Progress) {
    && (Issues(run.calls, Publish) ==> exists i :: IsOnly(run.calls, Publish, i))
    && (run.ending == Done <==> EndsPublished(run.calls))
    && (if run.ending == OtherError then IsOnly(run.calls, Delete, |run.calls| - 1) else !Issues(run.calls, Delete))
    && (if run.ending == VerificationError
        then IsOnly(run.calls, Alert, |run.calls| - 1) && !Issues(run.calls, Publish)
        else !Issues(run.calls, Alert))
  }

  lemma TailTells(transfers: seq<Call>, publishing: seq<Call>, world: World, ending: Ending)
    requires AreTransfers(transfers) && |publishing| <= 1
    requires if publishing == [] then ending != Done
             else publishing[0].action == Publish && ending == AfterCommand(publishing[0].reply)
    ensures var before := transfers + publishing;
            IsAccountable(Progress(before + Aftermath(world, |before|, ending), ending))
  {
    var before := transfers + publishing;
    var calls := before + Aftermath(world, |before|, ending);
    if publishing != [] {
      assert IsOnly(calls, Publish, |transfers|);
    }
  }

  lemma LogTells(phases: Phases, world: World)
    requires AreTransfers(phases.uploads.calls) && AreTransfers(phases.checks.calls) && |phases.publishing.calls| == 1
    requires phases.publishing.calls[0].action == Publish
    requires phases.publishing.ending == AfterCommand(phases.publishing.calls[0].reply)
    ensures IsAccountable(Log(phases, world))
  {
    var uploads, checks, publishing := phases.uploads, phases.checks, phases.publishing;
    if uploads.ending != Done {
      TailTells(uploads.calls, [], world, uploads.ending);
      assert uploads.calls + [] == uploads.calls;
    } else if checks.ending != Done {
      TailTells(uploads.calls + checks.calls, [], world, checks.ending);
      assert uploads.calls + checks.calls + [] == uploads.calls + checks.calls;
    } else {
      TailTells(uploads.calls + checks.calls, publishing.calls, world, publishing.ending);
      assert uploads.calls + checks.calls + publishing.calls == uploads.calls + (checks.calls + publishing.calls);
    }
  }

  /**
  The publishing is never issued twice, and the run ends well exactly when it was the last
  call and succeeded. A verification error publishes nothing and deletes nothing, but
  alerts. Any other exception leads to exactly one attempt to delete, the last call; nothing
  else does.
  */
  lemma EveryRunIsAccountable(crypto: Crypto, world: World, platforms: seq<string>, checksums: map<string, string>)
    ensures IsAccountable(Whole(crypto, world, [], platforms, checksums))
  {
    RunIsLog(crypto, world, platforms, checksums);
    PhasesTransfer(crypto, world, platforms, Hashes(checksums));
    LogTells(PhasesOf(With(crypto, world), platforms, Hashes(checksums)), world);
  }

  /** A platform without a recorded digest keeps the release from being published. */
  lemma UnrecordedIsNeverPublished(crypto: Crypto, world: World, platforms: seq<string>, checksums: map<string, string>,
                                   platform: string)
    requires platform in platforms && platform !in checksums
    ensures !Issues(Whole(crypto, world, [], platforms, checksums).calls, Publish)
    ensures Whole(crypto, world, [], platforms, checksums).ending != Done
  {
    var run := Whole(crypto, world, [], platforms, checksums);
    EveryRunIsAccountable(crypto, world, platforms, checksums);
    if i :| 0 <= i < |run.calls| && run.calls[i].action == Publish {
      var m := PublishedIsVerified(crypto, world, platforms, checksums, i);
    }
  }

  // ---- Which replies cost the draft and its tag ----

  /** A reply that escapes as an ordinary exception: a verification failure and an interrupt do not. */
  predicate IsDestructive(call: Call) {
    match call.action
    case Upload(_) => !call.reply.Fine? && !call.reply.Interrupted?
    case Publish => !call.reply.Fine? && !call.reply.Interrupted?
    case Download(_) => call.reply.Unavailable? || call.reply.Broken?
    case Minisign(_) => call.reply.Broken?
    case _ => false
  }

  ghost predicate HasDestructive(calls: seq<Call>) {
    exists i :: 0 <= i < |calls| && IsDestructive(calls[i])
  }

  lemma HasDestructiveAppend(a: seq<Call>, b: seq<Call>)
    ensures HasDestructive(a + b) <==> HasDestructive(a) || HasDestructive(b)
  {
    assert forall i | 0 <= i < |a| :: a[i] == (a + b)[i];
    assert forall i | 0 <= i < |b| :: b[i] == (a + b)[|a| + i];
  }

  predicate IsUnrecorded(step: Step) {
    step.CheckDigest? && step.expected.None?
  }

  /** The ordinary exceptions of a stretch of the run are those of its replies. */
  ghost predicate IsBlamed(progress: Progress) {
    progress.ending == OtherError <==> HasDestructive(progress.calls)
  }

  /**
  A failed check surfaces as a verification error unless a download tool cannot be started or
  breaks, or the signature tool breaks; so for every step whose digest is recorded.
  */
  lemma StepIsBlamed(crypto: Crypto, world: World, at: nat, step: Step)
    requires !IsUnrecorded(step)
    ensures IsBlamed(Perform(crypto, world, at, step))
  {
    if step.CheckSignature? {
      SignatureCheckIsBlamed(crypto, world, at, step.asset, step.signature);
    } else {
      var progress := Perform(crypto, world, at, step);
      LoneCallIsBlamed(progress.calls[0]);
      assert progress.calls == [progress.calls[0]];
    }
  }

  lemma LoneCallIsBlamed(call: Call)
    ensures HasDestructive([call]) <==> IsDestructive(call)
  {
    assert [call][0] == call;
  }

  lemma SignatureCheckIsBlamed(crypto: Crypto, world: World, at: nat, asset: string, signature: string)
    ensures IsBlamed(Perform(crypto, world, at, CheckSignature(asset, signature)))
  {
    var first, second := Call(Download(asset), world(at)), Call(Download(signature), world(at + 1));
    var third := Call(Minisign(asset), world(at + 2));
    LoneCallIsBlamed(first);
    LoneCallIsBlamed(second);
    LoneCallIsBlamed(third);
    HasDestructiveAppend([first], [second]);
    HasDestructiveAppend([first, second], [third]);
    assert [first] + [second] == [first, second] && [first, second] + [third] == [first, second, third];
  }

  lemma {:induction false} StepsAreBlamed(perform: Performer, at: nat, steps: seq<Step>)
    requires forall n, x | !IsUnrecorded(x) :: IsBlamed(perform(n, x))
    requires forall i | 0 <= i < |steps| :: !IsUnrecorded(steps[i])
    ensures IsBlamed(Execute(perform, at, steps))
    decreases |steps|
  {
    if steps != [] {
      var now := perform(at, steps[0]);
      assert !IsUnrecorded(steps[0]) && IsBlamed(now);
      StepsAreBlamed(perform, at + |now.calls|, steps[1..]);
      HasDestructiveAppend(now.calls, Execute(perform, at + |now.calls|, steps[1..]).calls);
    }
  }

  /** Position of the first platform without a recorded digest, or the number of platforms. */
  function FirstUnrecorded(platforms: seq<string>, hashes: map<string, string>): (u: nat)
    ensures u <= |platforms|
    ensures u < |platforms| ==> platforms[u] !in hashes
    ensures forall i | 0 <= i < u :: platforms[i] in hashes
  {
    if platforms == [] || platforms[0] !in hashes then 0 else 1 + FirstUnrecorded(platforms[1..], hashes)
  }

  /** What precedes the look-up of the first missing digest; the whole block when none is missing. */
  function StepsBefore(platforms: seq<string>, hashes: map<string, string>): seq<Step> {
    var u := FirstUnrecorded(platforms, hashes);
    if u == |platforms| then Plan(platforms, hashes) else Uploads(platforms) + CheckSteps(platforms[..u], hashes)
  }

  /** A digest is missing, and all that precedes its look-up goes well. */
  predicate StopsAtMissing(crypto: Crypto, world: World, platforms: seq<string>, hashes: map<string, string>) {
    && FirstUnrecorded(platforms, hashes) < |platforms|
    && Execute(With(crypto, world), 0, StepsBefore(platforms, hashes)).ending == Done
  }

  lemma {:induction false} CheckStepsAppend(a: seq<string>, b: seq<string>, hashes: map<string, string>)
    ensures CheckSteps(a + b, hashes) == CheckSteps(a, hashes) + CheckSteps(b, hashes)
  {
    if a == [] {
      assert a + b == b;
    } else {
      assert (a + b)[1..] == a[1..] + b;
      CheckStepsAppend(a[1..], b, hashes);
    }
  }

  lemma {:induction false} UploadsAreRecorded(platforms: seq<string>)
    ensures forall i | 0 <= i < |UploadSteps(platforms)| :: !IsUnrecorded(UploadSteps(platforms)[i])
  {
    if platforms != [] {
      UploadsAreRecorded(platforms[1..]);
    }
  }

  lemma {:induction false} ChecksAreRecorded(platforms: seq<string>, hashes: map<string, string>)
    requires forall i | 0 <= i < |platforms| :: platforms[i] in hashes
    ensures forall i | 0 <= i < |CheckSteps(platforms, hashes)| :: !IsUnrecorded(CheckSteps(platforms, hashes)[i])
  {
    if platforms != [] {
      ChecksAreRecorded(platforms[1..], hashes);
    }
  }

  lemma BeforeIsRecorded(platforms: seq<string>, hashes: map<string, string>)
    ensures forall i | 0 <= i < |StepsBefore(platforms, hashes)| :: !IsUnrecorded(StepsBefore(platforms, hashes)[i])
  {
    var u := FirstUnrecorded(platforms, hashes);
    UploadsAreRecorded(platforms);
    ChecksAreRecorded(platforms[..u], hashes);
    assert platforms[..|platforms|] == platforms;
  }

  /** A missing digest ends the block as soon as its turn comes. */
  lemma BlockStopsAtMissing(perform: Performer, platforms: seq<string>, hashes: map<string, string>)
    requires FirstUnrecorded(platforms, hashes) < |platforms|
    requires forall n: nat, asset: string :: perform(n, CheckDigest(asset, None)) == Progress([], OtherError)
    ensures Execute(perform, 0, Plan(platforms, hashes))
            == Then(Execute(perform, 0, StepsBefore(platforms, hashes)), Progress([], OtherError))
  {
    var u := FirstUnrecorded(platforms, hashes);
    var missing := CheckDigest(Binary(platforms[u]), None);
    var rest := SplitAtMissing(platforms, hashes);
    ExecuteAppend(perform, 0, StepsBefore(platforms, hashes), [missing] + rest);
    ExecuteFirst(perform, |Execute(perform, 0, StepsBefore(platforms, hashes)).calls|, missing, rest);
  }

  lemma SplitAtMissing(platforms: seq<string>, hashes: map<string, string>) returns (rest: seq<Step>)
    requires FirstUnrecorded(platforms, hashes) < |platforms|
    ensures var missing := CheckDigest(Binary(platforms[FirstUnrecorded(platforms, hashes)]), None);
            Plan(platforms, hashes) == StepsBefore(platforms, hashes) + ([missing] + rest)
  {
    var u := FirstUnrecorded(platforms, hashes);
    var front, back := platforms[..u], platforms[u..];
    assert platforms == front + back;
    CheckStepsAppend(front, back, hashes);
    var tail := MissingFirst(back, hashes);
    var end := [CheckSignature(MANIFEST, MANIFEST_SIGNATURE)];
    var missing := [CheckDigest(Binary(platforms[u]), None)];
    Regroup(Uploads(platforms), CheckSteps(front, hashes), missing, tail, end, [PublishDraft]);
    rest := tail + end + [PublishDraft];
  }

  lemma MissingFirst(platforms: seq<string>, hashes: map<string, string>) returns (rest: seq<Step>)
    requires platforms != [] && platforms[0] !in hashes
    ensures CheckSteps(platforms, hashes) == [CheckDigest(Binary(platforms[0]), None)] + rest
  {
    rest := [CheckSignature(Binary(platforms[0]), Signature(platforms[0]))] + CheckSteps(platforms[1..], hashes);
  }

  lemma Regroup(a: seq<Step>, b: seq<Step>, c: seq<Step>, d: seq<Step>, e: seq<Step>, f: seq<Step>)
    ensures a + (b + (c + d) + e) + f == (a + b) + (c + (d + e + f))
  {
  }

  lemma BlockEndsIn(crypto: Crypto, world: World, platforms: seq<string>, hashes: map<string, string>)
    ensures var block := Execute(With(crypto, world), 0, Plan(platforms, hashes));
            block.ending == OtherError
            <==> HasDestructive(block.calls) || StopsAtMissing(crypto, world, platforms, hashes)
  {
    var perform := With(crypto, world);
    forall n: nat, x: Step | !IsUnrecorded(x) ensures IsBlamed(perform(n, x)) {
      StepIsBlamed(crypto, world, n, x);
    }
    BeforeIsRecorded(platforms, hashes);
    StepsAreBlamed(perform, 0, StepsBefore(platforms, hashes));
    if FirstUnrecorded(platforms, hashes) < |platforms| {
      BlockStopsAtMissing(perform, platforms, hashes);
      var before := Execute(perform, 0, StepsBefore(platforms, hashes));
      assert before.calls + [] == before.calls;
    }
  }

  /**
  The draft and its tag are sent to deletion if and only if some call's reply escaped as an
  ordinary exception, or all went well up to the look-up of a digest that is not recorded.
  */
  lemma DeletesIff(crypto: Crypto, world: World, platforms: seq<string>, checksums: map<string, string>)
    ensures var run := Whole(crypto, world, [], platforms, checksums);
            Issues(run.calls, Delete)
            <==> HasDestructive(run.calls) || StopsAtMissing(crypto, world, platforms, Hashes(checksums))
  {
    var run := Whole(crypto, world, [], platforms, checksums);
    var block := Execute(With(crypto, world), 0, Plan(platforms, Hashes(checksums)));
    var after := Aftermath(world, |block.calls|, block.ending);
    EveryRunIsAccountable(crypto, world, platforms, checksums);
    BlockEndsIn(crypto, world, platforms, Hashes(checksums));
    assert [] + block.calls == block.calls && run.calls == block.calls + after;
    HasDestructiveAppend(block.calls, after);
    assert run.ending == OtherError ==> Issues(run.calls, Delete);
  }

  /** With every digest recorded, only replies can cost the draft. */
  lemma RecordedDeletesIff(crypto: Crypto, world: World, platforms: seq<string>, checksums: map<string, string>)
    requires forall platform | platform in platforms :: platform in checksums
    ensures var run := Whole(crypto, world, [], platforms, checksums);
            Issues(run.calls, Delete) <==> HasDestructive(run.calls)
  {
    DeletesIff(crypto, world, platforms, checksums);
    assert FirstUnrecorded(platforms, Hashes(checksums)) == |platforms|;
  }

  // ---- Two tool hiccups that cost the draft ----

  /** All calls go well, delivering the same bytes, but for one. */
  function AllFineBut(bytes: Bytes, odd: nat, reply: Reply): World {
    (n: nat) => if n == odd then reply else Fine(bytes)
  }

  function Record(crypto: Crypto, platform: string, bytes: Bytes): map<string, string> {
    map[platform := "sha256:" + HexDigest(crypto, bytes)]
  }

  lemma RecordedHash(crypto: Crypto, platform: string, bytes: Bytes)
    ensures Hashes(Record(crypto, platform, bytes)) == map[platform := HexDigest(crypto, bytes)]
  {
    var digest := "sha256:" + HexDigest(crypto, bytes);
    assert "sha256:" <= digest && digest[7..] == HexDigest(crypto, bytes);
  }

  /** Five uploads and a digest check, then the first signature check. */
  function EarlySteps(platform: string, digest: string): seq<Step> {
    [UploadAsset(Binary(platform))]
    + ([UploadAsset(Archive(platform))]
       + ([UploadAsset(Signature(platform))]
          + ([UploadAsset(MANIFEST)]
             + ([UploadAsset(MANIFEST_SIGNATURE)] + [CheckDigest(Binary(platform), Some(digest))]))))
  }

  function LateSteps(platform: string): seq<Step> {
    [CheckSignature(Binary(platform), Signature(platform))]
    + [CheckSignature(MANIFEST, MANIFEST_SIGNATURE), PublishDraft]
  }

  lemma OnePlatformPlan(platform: string, digest: string)
    ensures Plan([platform], map[platform := digest]) == EarlySteps(platform, digest) + LateSteps(platform)
  {
    var hashes := map[platform := digest];
    assert [platform][1..] == [] && UploadSteps([]) == [] && CheckSteps([], hashes) == [];
    assert UploadSteps([platform])
        == [UploadAsset(Binary(platform)), UploadAsset(Archive(platform)), UploadAsset(Signature(platform))];
    assert CheckSteps([platform], hashes)
        == [CheckDigest(Binary(platform), Some(digest)), CheckSignature(Binary(platform), Signature(platform))];
  }

  predicate GoesWell(perform: Performer, at: nat, step: Step) {
    perform(at, step).ending == Done && |perform(at, step).calls| == 1
  }

  lemma OneGoesWell(perform: Performer, at: nat, step: Step, rest: seq<Step>)
    requires GoesWell(perform, at, step)
    ensures Execute(perform, at, [step] + rest).ending == Execute(perform, at + 1, rest).ending
    ensures Execute(perform, at + 1, rest).ending == Done
            ==> |Execute(perform, at, [step] + rest).calls| == 1 + |Execute(perform, at + 1, rest).calls|
  {
    ExecuteFirst(perform, at, step, rest);
  }

  /** With one platform the calls before the first signature check are five uploads and one download. */
  lemma ReachesSignatureCheck(perform: Performer, platform: string, digest: string)
    requires forall n: nat, asset: string | n < 5 :: GoesWell(perform, n, UploadAsset(asset))
    requires GoesWell(perform, 5, CheckDigest(Binary(platform), Some(digest)))
    ensures var early := Execute(perform, 0, EarlySteps(platform, digest)); early.ending == Done && |early.calls| == 6
  {
    var s5 := [CheckDigest(Binary(platform), Some(digest))];
    var s4 := [UploadAsset(MANIFEST_SIGNATURE)] + s5;
    var s3 := [UploadAsset(MANIFEST)] + s4;
    var s2 := [UploadAsset(Signature(platform))] + s3;
    var s1 := [UploadAsset(Archive(platform))] + s2;
    ExecuteOne(perform, 5, s5[0]);
    OneGoesWell(perform, 4, UploadAsset(MANIFEST_SIGNATURE), s5);
    OneGoesWell(perform, 3, UploadAsset(MANIFEST), s4);
    OneGoesWell(perform, 2, UploadAsset(Signature(platform)), s3);
    OneGoesWell(perform, 1, UploadAsset(Archive(platform)), s2);
    OneGoesWell(perform, 0, UploadAsset(Binary(platform)), s1);
  }

  /** What happens at the signature check decides the run when it does not end well there. */
  lemma SignatureCheckDecides(crypto: Crypto, platform: string, bytes: Bytes, odd: nat, reply: Reply)
    requires odd >= 6
    requires var check := CheckSignature(Binary(platform), Signature(platform));
             Perform(crypto, AllFineBut(bytes, odd, reply), 6, check).ending == OtherError
    ensures var world, checksums := AllFineBut(bytes, odd, reply), Record(crypto, platform, bytes);
            Whole(crypto, world, [], [platform], checksums).ending == OtherError
  {
    var digest := HexDigest(crypto, bytes);
    var perform := With(crypto, AllFineBut(bytes, odd, reply));
    RecordedHash(crypto, platform, bytes);
    OnePlatformPlan(platform, digest);
    ReachesSignatureCheck(perform, platform, digest);
    CheckEndsRun(perform, EarlySteps(platform, digest), CheckSignature(Binary(platform), Signature(platform)),
                 [CheckSignature(MANIFEST, MANIFEST_SIGNATURE), PublishDraft]);
  }

  lemma CheckEndsRun(perform: Performer, early: seq<Step>, check: Step, rest: seq<Step>)
    requires Execute(perform, 0, early).ending == Done
    requires perform(|Execute(perform, 0, early).calls|, check).ending == OtherError
    ensures Execute(perform, 0, early + ([check] + rest)).ending == OtherError
  {
    ExecuteAppend(perform, 0, early, [check] + rest);
    ExecuteFirst(perform, |Execute(perform, 0, early).calls|, check, rest);
  }

  /**
  Every call goes well but the signature tool breaks at the first check, or every call goes
  well but the download tool cannot be started for it: either way the draft is deleted, not
  preserved for triage.
  */
  lemma ToolHiccupsDelete(crypto: Crypto, platform: string, bytes: Bytes)
    ensures var checksums := Record(crypto, platform, bytes);
            var broken := Whole(crypto, AllFineBut(bytes, 8, Broken), [], [platform], checksums);
            var missing := Whole(crypto, AllFineBut(bytes, 6, Unavailable), [], [platform], checksums);
            && Issues(broken.calls, Delete) && !Issues(broken.calls, Alert)
            && Issues(missing.calls, Delete) && !Issues(missing.calls, Alert)
  {
    var checksums := Record(crypto, platform, bytes);
    SignatureCheckDecides(crypto, platform, bytes, 8, Broken);
    SignatureCheckDecides(crypto, platform, bytes, 6, Unavailable);
    EveryRunIsAccountable(crypto, AllFineBut(bytes, 8, Broken), [platform], checksums);
    EveryRunIsAccountable(crypto, AllFineBut(bytes, 6, Unavailable), [platform], checksums);
  }

  // ---- Interrupts ----

  /** A call of the guarded block during which the run is interrupted. */
  predicate IsInterrupted(call: Call) {
    call.reply.Interrupted? && !call.action.Alert? && !call.action.Delete?
  }

  ghost predicate HasInterrupted(calls: seq<Call>) {
    exists i :: 0 <= i < |calls| && IsInterrupted(calls[i])
  }

  lemma HasInterruptedAppend(a: seq<Call>, b: seq<Call>)
    ensures HasInterrupted(a + b) <==> HasInterrupted(a) || HasInterrupted(b)
  {
    assert forall i | 0 <= i < |a| :: a[i] == (a + b)[i];
    assert forall i | 0 <= i < |b| :: b[i] == (a + b)[|a| + i];
  }

  lemma LoneCallInterrupts(call: Call)
    ensures HasInterrupted([call]) <==> IsInterrupted(call)
  {
    assert [call][0] == call;
  }

  ghost predicate IsCutShort(progress: Progress) {
    progress.ending == Interruption <==> HasInterrupted(progress.calls)
  }

  lemma StepIsCutShort(crypto: Crypto, world: World, at: nat, step: Step)
    ensures IsCutShort(Perform(crypto, world, at, step))
  {
    if step.CheckSignature? {
      SignatureCheckIsCutShort(crypto, world, at, step.asset, step.signature);
    } else if !IsUnrecorded(step) {
      var progress := Perform(crypto, world, at, step);
      LoneCallInterrupts(progress.calls[0]);
      assert progress.calls == [progress.calls[0]];
    }
  }

  lemma SignatureCheckIsCutShort(crypto: Crypto, world: World, at: nat, asset: string, signature: string)
    ensures IsCutShort(Perform(crypto, world, at, CheckSignature(asset, signature)))
  {
    var first, second := Call(Download(asset), world(at)), Call(Download(signature), world(at + 1));
    var third := Call(Minisign(asset), world(at + 2));
    LoneCallInterrupts(first);
    LoneCallInterrupts(second);
    LoneCallInterrupts(third);
    HasInterruptedAppend([first], [second]);
    HasInterruptedAppend([first, second], [third]);
    assert [first] + [second] == [first, second] && [first, second] + [third] == [first, second, third];
  }

  lemma {:induction false} StepsAreCutShort(perform: Performer, at: nat, steps: seq<Step>)
    requires forall n, x :: IsCutShort(perform(n, x))
    ensures IsCutShort(Execute(perform, at, steps))
    decreases |steps|
  {
    if steps != [] {
      var now := perform(at, steps[0]);
      assert IsCutShort(now);
      StepsAreCutShort(perform, at + |now.calls|, steps[1..]);
      HasInterruptedAppend(now.calls, Execute(perform, at + |now.calls|, steps[1..]).calls);
    }
  }

  /**
  How a run ends, by the replies to its calls: interrupted exactly when one was; published exactly
  when every step succeeded; in an ordinary exception exactly when a reply escaped as one or a
  digest is missing when its turn comes; and in every other case in a verification error.
  */
  lemma RunEndsBy(crypto: Crypto, world: World, platforms: seq<string>, checksums: map<string, string>)
    ensures var run, hashes := Whole(crypto, world, [], platforms, checksums), Hashes(checksums);
            && (run.ending == Interruption <==> HasInterrupted(run.calls))
            && (run.ending == Done <==> AllSucceed(crypto, world, 0, Plan(platforms, hashes)))
            && (run.ending == OtherError
                <==> HasDestructive(run.calls) || StopsAtMissing(crypto, world, platforms, hashes))
  {
    var perform := With(crypto, world);
    forall n: nat, x: Step ensures IsCutShort(perform(n, x)) {
      StepIsCutShort(crypto, world, n, x);
    }
    var steps := Plan(platforms, Hashes(checksums));
    var block := Execute(perform, 0, steps);
    StepsAreCutShort(perform, 0, steps);
    ExecuteDoneIff(crypto, world, 0, steps);
    DeletesIff(crypto, world, platforms, checksums);
    EveryRunIsAccountable(crypto, world, platforms, checksums);
    assert [] + block.calls == block.calls;
    HasInterruptedAppend(block.calls, Aftermath(world, |block.calls|, block.ending));
  }
}
