/**
 * Per-drop handling (event/poster.go): skip expired and recently posted drops, look
 * up both endpoints' pods, post zero, one or two events, count the drop per
 * (source name, destination name) and record when the pair was last posted; the
 * run loop retries the handling of each drop, in channel order, until it succeeds
 * or the retry budget runs out.
 *
 * The outside world of one attempt (the clock, the pod index, DNS, and whether an
 * object reference can be built for a pod) is an `Env` value. The Prometheus counter
 * and the events posted are ghost fields of the poster.
 *
 * Post times are kept per (source IP, destination IP) pair. The source keys them by
 * the two addresses concatenated (event/poster.go:117,130), which lets two different
 * pairs share one entry; `ShouldIgnoreAsWritten` and `ConcatKeyConflatesPairs` model
 * that key, and `Handled`, `Poster.Handle`, `Poster.Run` and the lemmas about them
 * use the corrected pair key.
 */
module EventPoster {
  import opened Wrappers
  import Text
  import Envar
  import opened DropParser
  import opened EventLocator

  const EventTypeWarning := "Warning"

  /** A Kubernetes event as posted: target pod, type, reason and message. */
  datatype Event = Event(target: Pod, eventType: string, reason: string, message: string)

  /**
   * What one attempt at handling a drop sees: the time, the pod index, the DNS
   * resolver, and for each pod the error of building its object reference, if any
   * (the only way submitting an event can fail; the recorder itself reports nothing).
   */
  datatype Env = Env(now: int, locator: PodIndexer, resolver: Resolver, referenceError: Pod -> Option<string>)

  /** The (source IP, destination IP) pair a notification is deduplicated on. */
  type PairKey = (string, string)

  function PairOf(pd: PacketDrop): PairKey
  {
    (pd.srcIP, pd.dstIP)
  }

  /**
   * The ignore rule given the last time the drop's pair was posted: an expired drop
   * is ignored, and so is one whose log time is at most the repeat interval after
   * that post (an earlier log time included).
   */
  predicate IgnoredAgainst(lastPosted: Option<int>, pd: PacketDrop, now: int, settings: Envar.Settings, parseTime: TimeParser)
  {
    IsExpired(pd, now, settings.packetDropExpirationMinutes, parseTime)
    || (lastPosted.Some?
        && parseTime(pd.logTime).value - lastPosted.value <= settings.repeatedEventIntervalMinutes * Envar.NanosPerMinute)
  }

  /** shouldIgnore, over post times kept per (source, destination) pair. */
  predicate ShouldIgnore(submitTimes: map<PairKey, int>, pd: PacketDrop, now: int, settings: Envar.Settings, parseTime: TimeParser)
    ensures IsExpired(pd, now, settings.packetDropExpirationMinutes, parseTime) ==>
      ShouldIgnore(submitTimes, pd, now, settings, parseTime)
    ensures PairOf(pd) !in submitTimes ==>
      (ShouldIgnore(submitTimes, pd, now, settings, parseTime) <==> IsExpired(pd, now, settings.packetDropExpirationMinutes, parseTime))
  {
    IgnoredAgainst(Lookup(submitTimes, PairOf(pd)), pd, now, settings, parseTime)
  }

  /** The key the source files post times under: the two addresses written one after the other. */
  function ConcatKey(pd: PacketDrop): string
  {
    pd.srcIP + pd.dstIP
  }

  /** shouldIgnore as written, over post times keyed by the concatenated addresses. */
  predicate ShouldIgnoreAsWritten(submitTimes: map<string, int>, pd: PacketDrop, now: int, settings: Envar.Settings,
                                  parseTime: TimeParser)
    ensures IsExpired(pd, now, settings.packetDropExpirationMinutes, parseTime) ==>
      ShouldIgnoreAsWritten(submitTimes, pd, now, settings, parseTime)
    ensures ConcatKey(pd) !in submitTimes ==>
      (ShouldIgnoreAsWritten(submitTimes, pd, now, settings, parseTime) <==>
       IsExpired(pd, now, settings.packetDropExpirationMinutes, parseTime))
  {
    IgnoredAgainst(Lookup(submitTimes, ConcatKey(pd)), pd, now, settings, parseTime)
  }

  /** The ignore rule in full: expired, or posted for the same pair no more than one interval before the log time. */
  lemma IgnoreRule(submitTimes: map<PairKey, int>, pd: PacketDrop, now: int, settings: Envar.Settings, parseTime: TimeParser)
    ensures IsExpired(pd, now, settings.packetDropExpirationMinutes, parseTime) ==>
      ShouldIgnore(submitTimes, pd, now, settings, parseTime)
    ensures !IsExpired(pd, now, settings.packetDropExpirationMinutes, parseTime) ==>
      (ShouldIgnore(submitTimes, pd, now, settings, parseTime) <==>
         PairOf(pd) in submitTimes
         && parseTime(pd.logTime).value - submitTimes[PairOf(pd)] <= settings.repeatedEventIntervalMinutes * Envar.NanosPerMinute)
  {
  }

  /** A fresh drop whose pair was never posted is handled. */
  lemma FreshUnpostedDropNotIgnored(submitTimes: map<PairKey, int>, pd: PacketDrop, now: int, settings: Envar.Settings,
                                    parseTime: TimeParser)
    requires PairOf(pd) !in submitTimes
    requires !IsExpired(pd, now, settings.packetDropExpirationMinutes, parseTime)
    ensures !ShouldIgnore(submitTimes, pd, now, settings, parseTime)
  {
  }

  /** What the poster keeps: post times per pair, the drop counter, and the events posted. */
  datatype PosterState = PosterState(
    submitTimes: map<PairKey, int>,
    dropCounts: map<(string, string), nat>,
    events: seq<Event>)

  datatype HandleResult = HandleResult(state: PosterState, err: Option<string>)

  /** The counter's one mutating operation: add one for a (source, destination) label pair. */
  function Increment(counts: map<(string, string), nat>, key: (string, string)): (r: map<(string, string), nat>)
    ensures key in r && r[key] == (if key in counts then counts[key] else 0) + 1
    ensures forall k :: k != key ==> Lookup(r, k) == Lookup(counts, k)
  {
    counts[key := (if key in counts then counts[key] else 0) + 1]
  }

  /** submitEvent: building the pod's reference fails with an error, or the event is posted. */
  function Submitted(events: seq<Event>, pod: Pod, message: string, env: Env, settings: Envar.Settings): Result<seq<Event>>
  {
    match env.referenceError(pod)
    case Some(e) => Failure(e)
    case None => Success(events + [Event(pod, EventTypeWarning, settings.kubeEventDisplayReason, message)])
  }

  /** An endpoint gets an event when it is a pod on its own network. */
  predicate Notifiable(pod: Option<Pod>)
  {
    pod.Some? && !pod.value.hostNetwork
  }

  /** The event an endpoint gets about traffic with the other endpoint, when it is notifiable. */
  function NoticeOf(pod: Option<Pod>, otherName: string, otherIP: string, direction: TrafficDirection,
                    settings: Envar.Settings): seq<Event>
  {
    if Notifiable(pod)
    then [Event(pod.value, EventTypeWarning, settings.kubeEventDisplayReason, GetPacketDropMessage(otherName, otherIP, direction))]
    else []
  }

  /** Notifying one endpoint: its event is appended, or the reference error is returned. */
  function Notified(events: seq<Event>, pod: Option<Pod>, otherName: string, otherIP: string, direction: TrafficDirection,
                    env: Env, settings: Envar.Settings): (r: Result<seq<Event>>)
    ensures r.Success? ==> r.value == events + NoticeOf(pod, otherName, otherIP, direction, settings)
    ensures r.Failure? ==> Notifiable(pod) && env.referenceError(pod.value) == Some(r.error)
  {
    if Notifiable(pod) then Submitted(events, pod.value, GetPacketDropMessage(otherName, otherIP, direction), env, settings)
    else Success(events)
  }

  /** The events a handled drop posts: a send event to the source pod, then a receive event to the destination pod. */
  function Notices(srcPod: Option<Pod>, dstPod: Option<Pod>, srcName: string, dstName: string, pd: PacketDrop,
                   settings: Envar.Settings): seq<Event>
  {
    NoticeOf(srcPod, dstName, pd.dstIP, Send, settings) + NoticeOf(dstPod, srcName, pd.srcIP, Receive, settings)
  }

  /** handle once both endpoints are located: notify the source, then the destination, then count and record. */
  function Posted(s: PosterState, pd: PacketDrop, srcPod: Option<Pod>, dstPod: Option<Pod>, env: Env,
                  settings: Envar.Settings): HandleResult
  {
    var srcName := GetNamespaceOrHostName(srcPod, pd.srcIP, env.resolver, settings);
    var dstName := GetNamespaceOrHostName(dstPod, pd.dstIP, env.resolver, settings);
    match Notified(s.events, srcPod, dstName, pd.dstIP, Send, env, settings)
    case Failure(e) => HandleResult(s, Some(e))
    case Success(events1) =>
      match Notified(events1, dstPod, srcName, pd.srcIP, Receive, env, settings)
      case Failure(e) => HandleResult(s.(events := events1), Some(e))
      case Success(events2) =>
        HandleResult(
          PosterState(s.submitTimes[PairOf(pd) := env.now], Increment(s.dropCounts, (srcName, dstName)), events2),
          None)
  }

  /** handle, as a function of the poster's state and the attempt's environment. */
  function Handled(s: PosterState, pd: PacketDrop, env: Env, settings: Envar.Settings, parseTime: TimeParser): HandleResult
  {
    if ShouldIgnore(s.submitTimes, pd, env.now, settings, parseTime) then HandleResult(s, None)
    else match LocatePod(env.locator, pd.srcIP)
      case Failure(e) => HandleResult(s, Some(e))
      case Success(srcPod) =>
        match LocatePod(env.locator, pd.dstIP)
        case Failure(e) => HandleResult(s, Some(e))
        case Success(dstPod) => Posted(s, pd, srcPod, dstPod, env, settings)
  }

  /**
   * Posting once both endpoints are located: on success, the events both endpoints call
   * for, one more count for the pair of names and the pair's post time; on a failed submission,
   * no count and no post time, and at most the source's event.
   */
  lemma PostedEffects(s: PosterState, pd: PacketDrop, srcPod: Option<Pod>, dstPod: Option<Pod>, env: Env,
                      settings: Envar.Settings)
    ensures var r := Posted(s, pd, srcPod, dstPod, env, settings);
      var srcName := GetNamespaceOrHostName(srcPod, pd.srcIP, env.resolver, settings);
      var dstName := GetNamespaceOrHostName(dstPod, pd.dstIP, env.resolver, settings);
      && (r.err.None? ==>
            r.state == PosterState(s.submitTimes[PairOf(pd) := env.now], Increment(s.dropCounts, (srcName, dstName)),
                                   s.events + Notices(srcPod, dstPod, srcName, dstName, pd, settings)))
      && (r.err.Some? ==>
            && r.state.submitTimes == s.submitTimes && r.state.dropCounts == s.dropCounts
            && s.events <= r.state.events && |r.state.events| <= |s.events| + 1)
  {
    var srcName := GetNamespaceOrHostName(srcPod, pd.srcIP, env.resolver, settings);
    var dstName := GetNamespaceOrHostName(dstPod, pd.dstIP, env.resolver, settings);
    var first := Notified(s.events, srcPod, dstName, pd.dstIP, Send, env, settings);
    if first.Success? {
      var second := Notified(first.value, dstPod, srcName, pd.srcIP, Receive, env, settings);
      if second.Success? {
        Text.AppendAssoc(s.events, NoticeOf(srcPod, dstName, pd.dstIP, Send, settings),
                    NoticeOf(dstPod, srcName, pd.srcIP, Receive, settings));
      }
    }
  }

  /** The result of retrying handle over the attempts, stopping at the first success. */
  function Retried(s: PosterState, pd: PacketDrop, attempts: seq<Env>, settings: Envar.Settings, parseTime: TimeParser)
    : HandleResult
    requires attempts != []
    decreases |attempts|
  {
    var r := Handled(s, pd, attempts[0], settings, parseTime);
    if r.err.None? || |attempts| == 1 then r
    else Retried(r.state, pd, attempts[1..], settings, parseTime)
  }

  /** Each drop has its own retry budget: at least one attempt (the backoff is reset between drops). */
  predicate IsSchedule(drops: seq<PacketDrop>, attempts: seq<seq<Env>>)
  {
    |attempts| == |drops| && forall i :: 0 <= i < |attempts| ==> attempts[i] != []
  }

  /** The poster's state after its run loop has consumed the drops in channel order. */
  function RunOutcome(s: PosterState, drops: seq<PacketDrop>, attempts: seq<seq<Env>>, settings: Envar.Settings,
                      parseTime: TimeParser): PosterState
    requires IsSchedule(drops, attempts)
    decreases |drops|
  {
    if drops == [] then s
    else
      assert forall i :: 0 <= i < |attempts| - 1 ==> attempts[1..][i] == attempts[i + 1];
      RunOutcome(Retried(s, drops[0], attempts[0], settings, parseTime).state, drops[1..], attempts[1..], settings, parseTime)
  }

  class Poster {
    var eventSubmitTimeMap: map<PairKey, int>
    ghost var dropCounts: map<(string, string), nat>
    ghost var events: seq<Event>

    ghost function State(): PosterState
      reads this
    {
      PosterState(eventSubmitTimeMap, dropCounts, events)
    }

    constructor InitPoster()
      ensures State() == PosterState(map[], map[], [])
    {
      eventSubmitTimeMap := map[];
      dropCounts := map[];
      events := [];
    }

    method SubmitEvent(pod: Pod, message: string, env: Env, settings: Envar.Settings) returns (err: Option<string>)
      modifies this
      ensures eventSubmitTimeMap == old(eventSubmitTimeMap) && dropCounts == old(dropCounts)
      ensures match Submitted(old(events), pod, message, env, settings)
        case Failure(e) => err == Some(e) && events == old(events)
        case Success(posted) => err == None && events == posted
    {
      err := env.referenceError(pod);
      if err.None? {
        events := events + [Event(pod, EventTypeWarning, settings.kubeEventDisplayReason, message)];
      }
    }

    method Handle(pd: PacketDrop, env: Env, settings: Envar.Settings, parseTime: TimeParser) returns (err: Option<string>)
      modifies this
      ensures State() == Handled(old(State()), pd, env, settings, parseTime).state
      ensures err == Handled(old(State()), pd, env, settings, parseTime).err
    {
      if ShouldIgnore(eventSubmitTimeMap, pd, env.now, settings, parseTime) {
        return None;
      }
      var srcPod := LocatePod(env.locator, pd.srcIP);
      if srcPod.Failure? {
        return Some(srcPod.error);
      }
      var dstPod := LocatePod(env.locator, pd.dstIP);
      if dstPod.Failure? {
        return Some(dstPod.error);
      }
      err := Post(pd, srcPod.value, dstPod.value, env, settings);
    }

    /** The part of handle after both lookups: notify each notifiable endpoint, then count and record. */
    method Post(pd: PacketDrop, srcPod: Option<Pod>, dstPod: Option<Pod>, env: Env, settings: Envar.Settings)
      returns (err: Option<string>)
      modifies this
      ensures State() == Posted(old(State()), pd, srcPod, dstPod, env, settings).state
      ensures err == Posted(old(State()), pd, srcPod, dstPod, env, settings).err
    {
      var srcName := GetNamespaceOrHostName(srcPod, pd.srcIP, env.resolver, settings);
      var dstName := GetNamespaceOrHostName(dstPod, pd.dstIP, env.resolver, settings);
      if srcPod.Some? && !srcPod.value.hostNetwork {
        var message := GetPacketDropMessage(dstName, pd.dstIP, Send);
        err := SubmitEvent(srcPod.value, message, env, settings);
        if err.Some? {
          return err;
        }
      }
      if dstPod.Some? && !dstPod.value.hostNetwork {
        var message := GetPacketDropMessage(srcName, pd.srcIP, Receive);
        err := SubmitEvent(dstPod.value, message, env, settings);
        if err.Some? {
          return err;
        }
      }
      dropCounts := Increment(dropCounts, (srcName, dstName));
      eventSubmitTimeMap := eventSubmitTimeMap[PairOf(pd) := env.now];
      return None;
    }

    /** The retry around handle: attempt after attempt until one succeeds or the budget is spent. */
    method HandleWithRetry(pd: PacketDrop, attempts: seq<Env>, settings: Envar.Settings, parseTime: TimeParser)
      returns (err: Option<string>)
      requires attempts != []
      modifies this
      ensures State() == Retried(old(State()), pd, attempts, settings, parseTime).state
      ensures err == Retried(old(State()), pd, attempts, settings, parseTime).err
    {
      ghost var start := State();
      err := Handle(pd, attempts[0], settings, parseTime);
      var j := 1;
      while err.Some? && j < |attempts|
        invariant 1 <= j <= |attempts|
        invariant Retried(start, pd, attempts, settings, parseTime)
          == if err.None? || j == |attempts| then HandleResult(State(), err)
             else Retried(State(), pd, attempts[j..], settings, parseTime)
      {
        assert attempts[j..][1..] == attempts[j + 1..];
        err := Handle(pd, attempts[j], settings, parseTime);
        j := j + 1;
      }
    }

    /** The run loop: the drops in channel order, each retried on its own fresh budget. */
    method Run(drops: seq<PacketDrop>, attempts: seq<seq<Env>>, settings: Envar.Settings, parseTime: TimeParser)
      requires IsSchedule(drops, attempts)
      modifies this
      ensures State() == RunOutcome(old(State()), drops, attempts, settings, parseTime)
    {
      var i := 0;
      while i < |drops|
        invariant 0 <= i <= |drops|
        invariant IsSchedule(drops[i..], attempts[i..])
        invariant RunOutcome(State(), drops[i..], attempts[i..], settings, parseTime)
               == RunOutcome(old(State()), drops, attempts, settings, parseTime)
      {
        assert drops[i..][1..] == drops[i + 1..];
        assert attempts[i..][1..] == attempts[i + 1..];
        var err := HandleWithRetry(drops[i], attempts[i], settings, parseTime);
        // a drop given up on is only reported; the next drop starts with a reset backoff
        i := i + 1;
      }
    }
  }

  /** An ignored drop is a success that changes nothing: no lookup, event, count or post time. */
  lemma IgnoredDropChangesNothing(s: PosterState, pd: PacketDrop, env: Env, settings: Envar.Settings, parseTime: TimeParser)
    requires ShouldIgnore(s.submitTimes, pd, env.now, settings, parseTime)
    ensures Handled(s, pd, env, settings, parseTime) == HandleResult(s, None)
  {
  }

  /** A failed pod lookup is returned before any event, count or post time changes. */
  lemma LookupFailureChangesNothing(s: PosterState, pd: PacketDrop, env: Env, settings: Envar.Settings, parseTime: TimeParser)
    requires !ShouldIgnore(s.submitTimes, pd, env.now, settings, parseTime)
    requires LocatePod(env.locator, pd.srcIP).Failure? || LocatePod(env.locator, pd.dstIP).Failure?
    ensures Handled(s, pd, env, settings, parseTime).state == s
    ensures Handled(s, pd, env, settings, parseTime).err ==
      Some(if LocatePod(env.locator, pd.srcIP).Failure? then LocatePod(env.locator, pd.srcIP).error
           else LocatePod(env.locator, pd.dstIP).error)
  {
  }

  /**
   * A successful, not ignored drop posts exactly the events its endpoints call for,
   * adds one to the counter of its (source name, destination name) and to no other,
   * and records `now` for its pair and no other.
   */
  lemma HandledDropEffects(s: PosterState, pd: PacketDrop, env: Env, settings: Envar.Settings, parseTime: TimeParser)
    requires !ShouldIgnore(s.submitTimes, pd, env.now, settings, parseTime)
    requires Handled(s, pd, env, settings, parseTime).err.None?
    ensures LocatePod(env.locator, pd.srcIP).Success? && LocatePod(env.locator, pd.dstIP).Success?
    ensures var srcPod := LocatePod(env.locator, pd.srcIP).value;
      var dstPod := LocatePod(env.locator, pd.dstIP).value;
      var srcName := GetNamespaceOrHostName(srcPod, pd.srcIP, env.resolver, settings);
      var dstName := GetNamespaceOrHostName(dstPod, pd.dstIP, env.resolver, settings);
      var s' := Handled(s, pd, env, settings, parseTime).state;
      && s'.events == s.events + Notices(srcPod, dstPod, srcName, dstName, pd, settings)
      && (srcName, dstName) in s'.dropCounts
      && s'.dropCounts[(srcName, dstName)] == (if (srcName, dstName) in s.dropCounts then s.dropCounts[(srcName, dstName)] else 0) + 1
      && (forall k :: k != (srcName, dstName) ==> Lookup(s'.dropCounts, k) == Lookup(s.dropCounts, k))
      && PairOf(pd) in s'.submitTimes && s'.submitTimes[PairOf(pd)] == env.now
      && (forall k :: k != PairOf(pd) ==> Lookup(s'.submitTimes, k) == Lookup(s.submitTimes, k))
  {
    var srcPod, dstPod := LocatePod(env.locator, pd.srcIP), LocatePod(env.locator, pd.dstIP);
    assert srcPod.Success? && dstPod.Success?;
    PostedEffects(s, pd, srcPod.value, dstPod.value, env, settings);
  }

  /** A failed handling never touches the counter or the post times; at most the source's event went out. */
  lemma FailedHandlingSkipsBookkeeping(s: PosterState, pd: PacketDrop, env: Env, settings: Envar.Settings, parseTime: TimeParser)
    requires Handled(s, pd, env, settings, parseTime).err.Some?
    ensures var s' := Handled(s, pd, env, settings, parseTime).state;
      && s'.submitTimes == s.submitTimes
      && s'.dropCounts == s.dropCounts
      && s.events <= s'.events && |s'.events| <= |s.events| + 1
  {
    var srcPod, dstPod := LocatePod(env.locator, pd.srcIP), LocatePod(env.locator, pd.dstIP);
    if srcPod.Success? && dstPod.Success? {
      PostedEffects(s, pd, srcPod.value, dstPod.value, env, settings);
    }
  }

  /** Handling a drop only ever appends events, at most two. */
  lemma HandlingAppendsAtMostTwoEvents(s: PosterState, pd: PacketDrop, env: Env, settings: Envar.Settings, parseTime: TimeParser)
    ensures var s' := Handled(s, pd, env, settings, parseTime).state;
      s.events <= s'.events && |s'.events| <= |s.events| + 2
  {
    var srcPod, dstPod := LocatePod(env.locator, pd.srcIP), LocatePod(env.locator, pd.dstIP);
    if !ShouldIgnore(s.submitTimes, pd, env.now, settings, parseTime) && srcPod.Success? && dstPod.Success? {
      PostedEffects(s, pd, srcPod.value, dstPod.value, env, settings);
    }
  }

  /**
   * Deduplication: once a drop has been posted at time `now`, a later drop of the same
   * pair whose log time is at most one repeat interval after `now` is ignored.
   */
  lemma RepeatWithinIntervalSuppressed(s: PosterState, pd1: PacketDrop, env1: Env, pd2: PacketDrop, env2: Env,
                                       settings: Envar.Settings, parseTime: TimeParser)
    requires !ShouldIgnore(s.submitTimes, pd1, env1.now, settings, parseTime)
    requires Handled(s, pd1, env1, settings, parseTime).err.None?
    requires PairOf(pd2) == PairOf(pd1)
    requires parseTime(pd2.logTime).Some?
    requires parseTime(pd2.logTime).value - env1.now <= settings.repeatedEventIntervalMinutes * Envar.NanosPerMinute
    ensures var s1 := Handled(s, pd1, env1, settings, parseTime).state;
      Handled(s1, pd2, env2, settings, parseTime) == HandleResult(s1, None)
  {
    HandledDropEffects(s, pd1, env1, settings, parseTime);
  }

  /** The pair key keeps pairs apart: handling one pair never changes whether another pair is ignored. */
  lemma OtherPairsUnaffected(s: PosterState, pd: PacketDrop, env: Env, other: PacketDrop, now: int,
                             settings: Envar.Settings, parseTime: TimeParser)
    requires PairOf(other) != PairOf(pd)
    ensures ShouldIgnore(Handled(s, pd, env, settings, parseTime).state.submitTimes, other, now, settings, parseTime)
         == ShouldIgnore(s.submitTimes, other, now, settings, parseTime)
  {
    var s' := Handled(s, pd, env, settings, parseTime).state;
    assert Lookup(s'.submitTimes, PairOf(other)) == Lookup(s.submitTimes, PairOf(other));
  }

  /**
   * The concatenated key of the source conflates pairs: 1.1.1.1 to 12.2.2.2 and
   * 1.1.1.11 to 2.2.2.2 share a key, so posting the first suppresses the second,
   * which the pair key does not.
   */
  lemma ConcatKeyConflatesPairs(first: PacketDrop, second: PacketDrop, posted: int, now: int,
                                settings: Envar.Settings, parseTime: TimeParser)
    requires first.srcIP == "1.1.1.1" && first.dstIP == "12.2.2.2"
    requires second.srcIP == "1.1.1.11" && second.dstIP == "2.2.2.2"
    requires !IsExpired(second, now, settings.packetDropExpirationMinutes, parseTime)
    requires parseTime(second.logTime).value - posted <= settings.repeatedEventIntervalMinutes * Envar.NanosPerMinute
    ensures PairOf(first) != PairOf(second)
    ensures ConcatKey(first) == ConcatKey(second)
    ensures ShouldIgnoreAsWritten(map[ConcatKey(first) := posted], second, now, settings, parseTime)
    ensures !ShouldIgnore(map[PairOf(first) := posted], second, now, settings, parseTime)
  {
    assert PairOf(first).0 != PairOf(second).0 by { assert |first.srcIP| != |second.srcIP|; }
    assert ConcatKey(first) == "1.1.1.112.2.2.2" == ConcatKey(second);
  }

  /** Once an attempt succeeds no further attempt is made: later budget changes nothing. */
  lemma {:induction false} RetryStopsAtSuccess(s: PosterState, pd: PacketDrop, attempts: seq<Env>, more: seq<Env>,
                                               settings: Envar.Settings, parseTime: TimeParser)
    requires attempts != []
    requires Retried(s, pd, attempts, settings, parseTime).err.None?
    ensures Retried(s, pd, attempts + more, settings, parseTime) == Retried(s, pd, attempts, settings, parseTime)
    decreases |attempts|
  {
    assert (attempts + more)[0] == attempts[0];
    var r := Handled(s, pd, attempts[0], settings, parseTime);
    if r.err.Some? {
      assert (attempts + more)[1..] == attempts[1..] + more;
      RetryStopsAtSuccess(r.state, pd, attempts[1..], more, settings, parseTime);
    }
  }

  /** The run loop is sequential: two batches of drops are handled as the first, then the second. */
  lemma {:induction false} RunOutcomeAppend(s: PosterState, drops1: seq<PacketDrop>, attempts1: seq<seq<Env>>,
                                            drops2: seq<PacketDrop>, attempts2: seq<seq<Env>>,
                                            settings: Envar.Settings, parseTime: TimeParser)
    requires IsSchedule(drops1, attempts1) && IsSchedule(drops2, attempts2)
    ensures IsSchedule(drops1 + drops2, attempts1 + attempts2)
    ensures RunOutcome(s, drops1 + drops2, attempts1 + attempts2, settings, parseTime)
         == RunOutcome(RunOutcome(s, drops1, attempts1, settings, parseTime), drops2, attempts2, settings, parseTime)
    decreases |drops1|
  {
    var drops, attempts := drops1 + drops2, attempts1 + attempts2;
    assert forall i :: 0 <= i < |attempts| ==> attempts[i] == if i < |attempts1| then attempts1[i] else attempts2[i - |attempts1|];
    if drops1 == [] {
      assert drops == drops2 && attempts == attempts2;
    } else {
      assert drops[1..] == drops1[1..] + drops2;
      assert attempts[1..] == attempts1[1..] + attempts2;
      assert IsSchedule(drops1[1..], attempts1[1..]) by {
        assert forall i :: 0 <= i < |attempts1| - 1 ==> attempts1[1..][i] == attempts1[i + 1];
      }
      RunOutcomeAppend(Retried(s, drops1[0], attempts1[0], settings, parseTime).state, drops1[1..], attempts1[1..],
                       drops2, attempts2, settings, parseTime);
    }
  }
}
