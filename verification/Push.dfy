/** Pushing images to a registry: an outer retry over a shrinking work set, two inner tries per copy. */
module Push {

  /** An image is copied to a name with a checksum, for the agent, and to its plain name. */
  datatype Target = Checksummed | Plain

  datatype Copy = Copy(attempt: nat, image: string, target: Target, ok: bool)

  /**
   * What the surroundings answer: is an attempt's connection ready, does a name transform, does the
   * n-th copy succeed, has the context been cancelled by the time n copies were made.
   */
  datatype Env = Env(
    ready: nat -> bool,
    named: (nat, string, Target) -> bool,
    copied: nat -> bool,
    cancelled: nat -> bool)

  const DEFAULT_RETRIES := 3

  function CopiesPerImage(noChecksum: bool): nat {
    if noChecksum then 2 else 4
  }

  ghost predicate PlainCopied(log: seq<Copy>, image: string) {
    exists i :: 0 <= i < |log| && log[i].image == image && log[i].target.Plain? && log[i].ok
  }

  /** In one attempt the image reached its plain name and, unless excused, its checksummed name. */
  ghost predicate Delivered(log: seq<Copy>, noChecksum: bool, image: string) {
    exists a :: Copy(a, image, Plain, true) in log && (noChecksum || Copy(a, image, Checksummed, true) in log)
  }

  /** Once an image has reached its plain name it is not copied again. */
  ghost predicate NoRework(log: seq<Copy>) {
    forall i, j :: 0 <= i < j < |log| && log[i].target.Plain? && log[i].ok ==> log[j].image != log[i].image
  }

  /**
   * Every copy was of an image to be pushed, over a ready connection, to a name that transforms, before any
   * cancellation, and is logged as it came out.
   */
  ghost predicate Honest(env: Env, all: set<string>, noChecksum: bool, log: seq<Copy>) {
    forall i :: 0 <= i < |log| ==>
      && env.ready(log[i].attempt) && env.named(log[i].attempt, log[i].image, log[i].target)
      && !env.cancelled(i) && log[i].ok == env.copied(i)
      && log[i].image in all && (log[i].target.Checksummed? ==> !noChecksum)
  }

  /** Within one attempt a copy that worked is not made again. */
  ghost predicate NoRepeat(log: seq<Copy>) {
    forall i, j :: 0 <= i < j < |log| && log[i].ok && log[i].attempt == log[j].attempt ==>
      log[i].image != log[j].image || log[i].target != log[j].target
  }

  /** Nothing that the push depends on goes wrong. */
  ghost predicate AllWell(env: Env) {
    && (forall a :: env.ready(a)) && (forall a, x, t :: env.named(a, x, t))
    && (forall n :: env.copied(n)) && (forall n :: !env.cancelled(n))
  }

  ghost predicate Cancelled(env: Env, log: seq<Copy>) {
    exists n :: 0 <= n <= |log| && env.cancelled(n)
  }

  /** One copy of the attempt was tried twice and failed twice. */
  ghost predicate FailedTwice(log: seq<Copy>, attempt: nat) {
    exists i, x, t: Target :: 0 <= i < |log| - 1 && log[i] == Copy(attempt, x, t, false) && log[i + 1] == log[i]
  }

  /** Why an attempt can fail when nothing is cancelled. */
  ghost predicate Failed(env: Env, all: set<string>, noChecksum: bool, log: seq<Copy>, attempt: nat) {
    || !env.ready(attempt)
    || (exists x, t: Target :: x in all && (t.Checksummed? ==> !noChecksum) && !env.named(attempt, x, t))
    || FailedTwice(log, attempt)
  }

  lemma FailureStays(env: Env, all: set<string>, noChecksum: bool, before: seq<Copy>, after: seq<Copy>, attempt: nat)
    requires before <= after
    ensures Failed(env, all, noChecksum, before, attempt) ==> Failed(env, all, noChecksum, after, attempt)
    ensures Cancelled(env, before) ==> Cancelled(env, after)
  {
    if FailedTwice(before, attempt) {
      var i, x, t :| 0 <= i < |before| - 1 && before[i] == Copy(attempt, x, t, false) && before[i + 1] == before[i];
      assert after[i] == before[i] && after[i + 1] == before[i + 1];
    }
  }

  /** The log grew by failed tries at one copy and, if `ok`, a last one that worked. */
  ghost predicate Tried(before: seq<Copy>, after: seq<Copy>, attempt: nat, image: string, target: Target, ok: bool) {
    && |before| <= |after| <= |before| + 2 && before <= after
    && (ok ==> |before| < |after|)
    && forall i :: |before| <= i < |after| ==> after[i] == Copy(attempt, image, target, ok && i == |after| - 1)
  }

  lemma TriedKeeps(before: seq<Copy>, after: seq<Copy>, attempt: nat, image: string, target: Target, ok: bool)
    requires Tried(before, after, attempt, image, target, ok)
    requires NoRework(before) && !PlainCopied(before, image)
    ensures NoRework(after)
    ensures ok ==> Copy(attempt, image, target, true) in after
    ensures forall x :: PlainCopied(after, x) <==> PlainCopied(before, x) || (x == image && ok && target.Plain?)
  {
    assert ok ==> after[|after| - 1] == Copy(attempt, image, target, true);
    forall x ensures PlainCopied(after, x) <==> PlainCopied(before, x) || (x == image && ok && target.Plain?) {
      if PlainCopied(before, x) {
        var i :| 0 <= i < |before| && before[i].image == x && before[i].target.Plain? && before[i].ok;
        assert after[i] == before[i];
      }
      if x == image && ok && target.Plain? {
        assert after[|after| - 1] == Copy(attempt, image, target, true);
      }
    }
    forall i, j | 0 <= i < j < |after| && after[i].target.Plain? && after[i].ok
      ensures after[j].image != after[i].image
    {
      if i < |before| {
        assert after[i] == before[i];
        assert j < |before| ==> after[j] == before[j];
      }
    }
  }

  /** One copy, tried at most twice, and not tried on once the context is cancelled. */
  method CopyWithRetry(image: string, target: Target, attempt: nat, env: Env, log: seq<Copy>)
    returns (ok: bool, log': seq<Copy>)
    ensures Tried(log, log', attempt, image, target, ok)
    ensures forall i :: |log| <= i < |log'| ==> !env.cancelled(i) && log'[i].ok == env.copied(i)
    ensures !ok ==> Cancelled(env, log') || FailedTwice(log', attempt)
  {
    log' := log;
    if env.cancelled(|log'|) {
      return false, log';
    }
    ok := env.copied(|log'|);
    log' := log' + [Copy(attempt, image, target, ok)];
    if !ok && !env.cancelled(|log'|) {
      ok := env.copied(|log'|);
      log' := log' + [Copy(attempt, image, target, ok)];
      assert !ok ==> log'[|log|] == Copy(attempt, image, target, false) && log'[|log| + 1] == log'[|log|];
    }
  }

  /** What holds of the log at any time. */
  ghost predicate Sound(env: Env, all: set<string>, noChecksum: bool, log: seq<Copy>) {
    Honest(env, all, noChecksum, log) && NoRepeat(log) && NoRework(log)
  }

  /** One copy of one image, if the name transforms. */
  method CopyTo(ghost all: set<string>, image: string, target: Target, noChecksum: bool, attempt: nat, env: Env,
                log: seq<Copy>)
    returns (ok: bool, log': seq<Copy>)
    requires env.ready(attempt) && image in all && (target.Checksummed? ==> !noChecksum)
    requires Sound(env, all, noChecksum, log) && !PlainCopied(log, image)
    requires forall i :: 0 <= i < |log| && log[i].attempt == attempt && log[i].image == image ==>
        log[i].target != target
    ensures Sound(env, all, noChecksum, log') && Tried(log, log', attempt, image, target, ok)
    ensures ok ==> Copy(attempt, image, target, true) in log'
    ensures forall x :: PlainCopied(log', x) <==> PlainCopied(log, x) || (x == image && ok && target.Plain?)
    ensures !ok ==> Cancelled(env, log') || Failed(env, all, noChecksum, log', attempt)
  {
    if !env.named(attempt, image, target) {
      return false, log;
    }
    ok, log' := CopyWithRetry(image, target, attempt, env, log);
    TriedKeeps(log, log', attempt, image, target, ok);
    TriedOnce(log, log', attempt, image, target, ok);
  }

  /** Both copies of one image; the checksummed one comes first. */
  method PushImage(ghost all: set<string>, image: string, noChecksum: bool, attempt: nat, env: Env, log: seq<Copy>)
    returns (ok: bool, log': seq<Copy>)
    requires env.ready(attempt) && image in all && Sound(env, all, noChecksum, log) && !PlainCopied(log, image)
    requires forall i :: 0 <= i < |log| && log[i].attempt == attempt ==> log[i].image != image
    ensures log <= log' && |log'| <= |log| + CopiesPerImage(noChecksum) && Sound(env, all, noChecksum, log')
    ensures ok ==> Delivered(log', noChecksum, image)
    ensures forall x :: PlainCopied(log', x) <==> PlainCopied(log, x) || (x == image && ok)
    ensures forall i :: |log| <= i < |log'| ==> log'[i].attempt == attempt && log'[i].image == image
    ensures !ok ==> Cancelled(env, log') || Failed(env, all, noChecksum, log', attempt)
  {
    log' := log;
    if !noChecksum {
      ok, log' := CopyTo(all, image, Checksummed, noChecksum, attempt, env, log);
      if !ok {
        return;
      }
    }
    ghost var mid := log';
    assert forall i :: 0 <= i < |log| ==> mid[i] == log[i];
    ok, log' := CopyTo(all, image, Plain, noChecksum, attempt, env, log');
    assert forall i :: 0 <= i < |mid| ==> log'[i] == mid[i];
    assert forall c :: c in mid ==> c in log';
  }

  /** The tries at one copy repeat nothing that worked before in the attempt. */
  lemma TriedOnce(before: seq<Copy>, after: seq<Copy>, attempt: nat, image: string, target: Target, ok: bool)
    requires Tried(before, after, attempt, image, target, ok) && NoRepeat(before)
    requires forall i :: 0 <= i < |before| && before[i].attempt == attempt && before[i].image == image ==>
               before[i].target != target
    ensures NoRepeat(after)
  {
    forall i, j | 0 <= i < j < |after| && after[i].ok && after[i].attempt == after[j].attempt
      ensures after[i].image != after[j].image || after[i].target != after[j].target
    {
      if i < |before| {
        assert after[i] == before[i];
        assert j < |before| ==> after[j] == before[j];
      }
    }
  }

  lemma DeliveredStays(before: seq<Copy>, after: seq<Copy>, noChecksum: bool, image: string)
    requires before <= after && Delivered(before, noChecksum, image)
    ensures Delivered(after, noChecksum, image)
  {
    var a :| Copy(a, image, Plain, true) in before && (noChecksum || Copy(a, image, Checksummed, true) in before);
    assert forall c :: c in before ==> c in after;
  }

  /** What the images already pushed, those still to push, and the log say about each other. */
  ghost predicate Partition(all: set<string>, toPush: set<string>, log: seq<Copy>, noChecksum: bool) {
    && toPush <= all && NoRework(log)
    && (forall x :: x in toPush ==> !PlainCopied(log, x))
    && (forall x :: x in all - toPush ==> Delivered(log, noChecksum, x))
  }

  function Members(images: seq<string>): set<string> {
    set x | x in images
  }

  /** The copy belongs to an earlier attempt, or to this one and an image already pushed in it. */
  ghost predicate InAttempt(c: Copy, attempt: nat, pushed: set<string>) {
    c.attempt <= attempt && (c.attempt == attempt ==> c.image in pushed)
  }

  /** One attempt: push what is left, in any order, up to the first failure. */
  method Attempt(ghost all: set<string>, toPush: set<string>, noChecksum: bool, attempt: nat, env: Env, log: seq<Copy>)
    returns (ok: bool, pushed: set<string>, log': seq<Copy>)
    requires Partition(all, toPush, log, noChecksum) && Sound(env, all, noChecksum, log)
    requires forall i :: 0 <= i < |log| ==> log[i].attempt < attempt
    ensures Sound(env, all, noChecksum, log')
    ensures forall i :: 0 <= i < |log'| ==> log'[i].attempt <= attempt
    ensures !ok ==> Cancelled(env, log') || Failed(env, all, noChecksum, log', attempt)
    ensures log <= log' && pushed <= toPush && Partition(all, toPush - pushed, log', noChecksum)
    ensures ok ==> pushed == toPush
    ensures !ok ==> pushed != toPush || toPush == {}
    ensures |log'| <= |log| + CopiesPerImage(noChecksum) * (|pushed| + if ok then 0 else 1)
  {
    pushed, log' := {}, log;
    if !env.ready(attempt) {
      return false, pushed, log';
    }
    while toPush - pushed != {}
      invariant pushed <= toPush && log <= log'
      invariant Partition(all, toPush - pushed, log', noChecksum)
      invariant |log'| <= |log| + CopiesPerImage(noChecksum) * |pushed|
      invariant Sound(env, all, noChecksum, log')
      invariant forall i :: 0 <= i < |log'| ==> InAttempt(log'[i], attempt, pushed)
      decreases toPush - pushed
    {
      var image :| image in toPush - pushed;
      ghost var before := log';
      ok, log' := PushImage(all, image, noChecksum, attempt, env, log');
      forall x | x in all - (toPush - pushed) ensures Delivered(log', noChecksum, x) {
        DeliveredStays(before, log', noChecksum, x);
      }
      if !ok {
        return;
      }
      pushed := pushed + {image};
      assert forall i :: 0 <= i < |before| ==> log'[i] == before[i];
      assert forall x :: x in all - (toPush - pushed) ==> Delivered(log', noChecksum, x);
    }
    assert forall x :: x in toPush ==> x in pushed || x in toPush - pushed;
    ok := true;
  }

  /** Each image was copied exactly once to each of its names, at the first attempt, and nothing else was. */
  ghost predicate CopiedOnce(images: seq<string>, noChecksum: bool, log: seq<Copy>) {
    && (forall c :: c in log ==> c.attempt == 0 && c.ok && c.image in images && (c.target.Checksummed? ==> !noChecksum))
    && (forall x :: x in images ==>
          Copy(0, x, Plain, true) in log && (noChecksum || Copy(0, x, Checksummed, true) in log))
    && (forall i, j :: 0 <= i < j < |log| ==> log[i] != log[j])
  }

  lemma WellCopied(images: seq<string>, noChecksum: bool, env: Env, log: seq<Copy>)
    requires AllWell(env) && Honest(env, Members(images), noChecksum, log) && NoRepeat(log)
    requires forall i :: 0 <= i < |log| ==> log[i].attempt < 1
    requires forall x :: x in images ==> Delivered(log, noChecksum, x)
    ensures CopiedOnce(images, noChecksum, log)
  {
  }

  /**
   * The whole push. At every moment the images are partitioned into delivered ones and ones left to
   * push; it succeeds exactly when none is left; a delivered image is never copied again; and however
   * the failures fall, no more than four copies are made per image and per attempt after the first.
   */
  method Push(images: seq<string>, noChecksum: bool, retries: int, env: Env)
    returns (ok: bool, toPush: set<string>, log: seq<Copy>)
    ensures toPush <= set x | x in images
    ensures images != [] ==> (ok <==> toPush == {})
    ensures images == [] ==> !ok && log == []
    ensures forall x :: x in images && x !in toPush ==> Delivered(log, noChecksum, x)
    ensures forall x :: x in toPush ==> !PlainCopied(log, x)
    ensures NoRework(log)
    ensures images != [] ==>
              var attempts := if retries < 1 then 3 else retries;
              |log| <= (if noChecksum then 2 else 4) * (|set x | x in images| + attempts - 1)
    ensures Honest(env, Members(images), noChecksum, log) && NoRepeat(log)
    ensures AllWell(env) && images != [] ==> ok && CopiedOnce(images, noChecksum, log)
    ensures !ok && images != [] ==>
              var attempts := if retries < 1 then 3 else retries;
              || Cancelled(env, log)
              || forall a :: 0 <= a < attempts ==> Failed(env, Members(images), noChecksum, log, a)
  {
    toPush, log := set x | x in images, [];
    if images == [] {
      return false, toPush, log;
    }
    ghost var all := toPush;
    assert images[0] in all;
    var attempts := if retries < 1 then DEFAULT_RETRIES else retries;
    var attempt := 0;
    ok := false;
    assert all - toPush == {};
    while !ok && attempt < attempts && !env.cancelled(|log|)
      invariant 0 <= attempt <= attempts
      invariant Pushing(env, all, toPush, noChecksum, log, attempt, ok)
      decreases attempts - attempt, !ok
    {
      var pushed;
      ghost var before := log;
      ok, pushed, log := Attempt(all, toPush, noChecksum, attempt, env, log);
      PushedOn(env, all, toPush, pushed, noChecksum, before, log, attempt, ok);
      toPush := toPush - pushed;
      attempt := attempt + 1;
    }
    Spent(CopiesPerImage(noChecksum), all, toPush, attempt, attempts, |log|, ok);
    if AllWell(env) {
      NothingFails(env, all, noChecksum, log);
      WellCopied(images, noChecksum, env, log);
    }
  }

  /** Between attempts: the first `attempt` are over, and unless the push is done all of them have failed. */
  ghost predicate Pushing(
    env: Env, all: set<string>, toPush: set<string>, noChecksum: bool, log: seq<Copy>, attempt: nat, ok: bool)
  {
    && Partition(all, toPush, log, noChecksum) && Sound(env, all, noChecksum, log) && (ok <==> toPush == {})
    && |log| <= CopiesPerImage(noChecksum) * (|all| - |toPush| + attempt - if ok then 1 else 0)
    && (forall i :: 0 <= i < |log| ==> log[i].attempt < attempt)
    && (!ok ==> Cancelled(env, log) || forall a :: 0 <= a < attempt ==> Failed(env, all, noChecksum, log, a))
    && (AllWell(env) ==> attempt == if ok then 1 else 0)
  }

  lemma PushedOn(env: Env, all: set<string>, toPush: set<string>, pushed: set<string>, noChecksum: bool,
                 before: seq<Copy>, after: seq<Copy>, attempt: nat, ok: bool)
    requires Pushing(env, all, toPush, noChecksum, before, attempt, false)
    requires before <= after && pushed <= toPush && Partition(all, toPush - pushed, after, noChecksum)
    requires Sound(env, all, noChecksum, after) && forall i :: 0 <= i < |after| ==> after[i].attempt <= attempt
    requires ok ==> pushed == toPush
    requires !ok ==> pushed != toPush || toPush == {}
    requires !ok ==> Cancelled(env, after) || Failed(env, all, noChecksum, after, attempt)
    requires |after| <= |before| + CopiesPerImage(noChecksum) * (|pushed| + if ok then 0 else 1)
    ensures Pushing(env, all, toPush - pushed, noChecksum, after, attempt + 1, ok)
  {
    Budget(CopiesPerImage(noChecksum), all, toPush, pushed, attempt, |before|, |after|, ok);
    forall a: nat | a < attempt
      ensures Failed(env, all, noChecksum, before, a) ==> Failed(env, all, noChecksum, after, a)
      ensures Cancelled(env, before) ==> Cancelled(env, after)
    {
      FailureStays(env, all, noChecksum, before, after, a);
    }
    FailureStays(env, all, noChecksum, before, after, attempt);
    if AllWell(env) {
      NothingFails(env, all, noChecksum, after);
    }
  }

  lemma NothingFails(env: Env, all: set<string>, noChecksum: bool, log: seq<Copy>)
    requires AllWell(env) && Honest(env, all, noChecksum, log)
    ensures !Cancelled(env, log) && forall a: nat :: !Failed(env, all, noChecksum, log, a)
  {
  }

  lemma Budget(per: nat, all: set<string>, toPush: set<string>, pushed: set<string>, attempt: nat, before: nat,
      after: nat, ok: bool)
    requires pushed <= toPush <= all
    requires before <= per * (|all| - |toPush| + attempt)
    requires after <= before + per * (|pushed| + if ok then 0 else 1)
    ensures after <= per * (|all| - |toPush - pushed| + (attempt + 1) - if ok then 1 else 0)
  {
    assert |toPush - pushed| == |toPush| - |pushed|;
    var left := |all| - |toPush| + attempt;
    var more := |pushed| + if ok then 0 else 1;
    assert per * (left + more) == per * left + per * more;
    assert |all| - |toPush - pushed| + (attempt + 1) - (if ok then 1 else 0) == left + more;
  }

  lemma Spent(per: nat, all: set<string>, toPush: set<string>, attempt: nat, attempts: nat, copies: nat, ok: bool)
    requires toPush <= all && all != {} && attempt <= attempts && 1 <= attempts
    requires ok <==> toPush == {}
    requires copies <= per * (|all| - |toPush| + attempt - if ok then 1 else 0)
    ensures copies <= per * (|all| + attempts - 1)
  {
    assert toPush != {} ==> |toPush| >= 1;
    var x, y := |all| - |toPush| + attempt - (if ok then 1 else 0), |all| + attempts - 1;
    assert x <= y;
    assert per * x <= per * y;
  }
}
