/** deployment/sshtunnel/ssh_tunnel.go: dialling a machine that is still starting. The loop
    has no counter; what ends it is the clock. */
module SshTunnel {

  datatype Failure = Failure(now: int, text: string)

  predicate Mentions(text: string, words: string) {
    words <= text || (text != [] && Mentions(text[1..], words))
  }

  /** It stands somewhere in the text. */
  lemma {:induction false} MentionsMeans(text: string, words: string)
    ensures Mentions(text, words) <==> exists i :: 0 <= i <= |text| && words <= text[i..]
  {
    assert text == text[0..];
    if text != [] {
      MentionsMeans(text[1..], words);
      forall i | 0 < i <= |text| ensures text[i..] == text[1..][i - 1..] {}
      if Mentions(text[1..], words) {
        var i :| 0 <= i <= |text[1..]| && words <= text[1..][i..];
        assert text[i + 1..] == text[1..][i..];
      }
    }
  }

  predicate NoCommonAlgorithms(f: Failure) {
    Mentions(f.text, "no common algorithms")
  }

  predicate UnableToAuthenticate(f: Failure) {
    !NoCommonAlgorithms(f) && Mentions(f.text, "unable to authenticate")
  }

  predicate Other(f: Failure) {
    !NoCommonAlgorithms(f) && !UnableToAuthenticate(f)
  }

  /** When the last failure happened that shows that the server did not even ask for
      credentials; before there is one, the time of the first failure. */
  ghost function AuthStart(h: seq<Failure>): int
    requires h != []
  {
    var last := h[|h| - 1];
    if Other(last) || |h| == 1 then last.now else AuthStart(h[..|h| - 1])
  }

  /** Whether to try again after these failures, by looking at all of them. */
  ghost predicate TryAgain(h: seq<Failure>, refused: nat, auth: nat)
    requires h != []
  {
    var last := h[|h| - 1];
    && !NoCommonAlgorithms(last)
    && (UnableToAuthenticate(last) ==> last.now < AuthStart(h) + auth)
    && (Other(last) ==> last.now < h[0].now + refused)
  }

  /** After every one of these failures the answer was to try again. */
  ghost predicate AllRetried(h: seq<Failure>, refused: nat, auth: nat) {
    forall k | 0 < k <= |h| :: TryAgain(h[..k], refused, auth)
  }

  ghost predicate Spaced(h: seq<Failure>, delay: nat) {
    forall k | 0 < k < |h| :: h[k - 1].now + delay <= h[k].now
  }

  /** What ends the loop, told without any clock but those of the failures: the last one is
      for want of a common algorithm; or it is about authentication, and comes no earlier
      than that timeout after every failure that was about neither, and after the first one;
      or it is about neither, and comes no earlier than its timeout after the first one. */
  ghost predicate Stops(h: seq<Failure>, refused: nat, auth: nat)
    requires h != []
  {
    var last := h[|h| - 1];
    if Mentions(last.text, "no common algorithms") then
      true
    else if Mentions(last.text, "unable to authenticate") then
      forall k | 0 <= k < |h| && (k == 0 || AboutNeither(h[k])) :: h[k].now + auth <= last.now
    else
      h[0].now + refused <= last.now
  }

  predicate AboutNeither(f: Failure) {
    !Mentions(f.text, "no common algorithms") && !Mentions(f.text, "unable to authenticate")
  }

  /** As long as the clock does not go backwards, the latest failure about neither is all
      that counts. */
  lemma {:induction false} AuthStartIsLatest(h: seq<Failure>)
    requires h != [] && Spaced(h, 0)
    ensures forall k | 0 <= k < |h| && (k == 0 || AboutNeither(h[k])) :: h[k].now <= AuthStart(h)
    ensures exists k :: 0 <= k < |h| && (k == 0 || AboutNeither(h[k])) && h[k].now == AuthStart(h)
    ensures AuthStart(h) <= h[|h| - 1].now
  {
    hide Mentions;
    var n := |h| - 1;
    if n > 0 {
      var before := h[..n];
      AuthStartIsLatest(before);
      if Other(h[n]) {
        assert AboutNeither(h[n]);
      } else {
        var k :| 0 <= k < n && (k == 0 || AboutNeither(before[k])) && before[k].now == AuthStart(before);
        assert h[k] == before[k];
      }
      forall k | 0 <= k < n && (k == 0 || AboutNeither(h[k])) ensures h[k].now <= AuthStart(h) {
        assert before[k] == h[k];
        assert h[n - 1].now + 0 <= h[n].now;
      }
    }
  }

  lemma TryAgainUnlessStops(h: seq<Failure>, refused: nat, auth: nat)
    requires h != [] && Spaced(h, 0)
    ensures TryAgain(h, refused, auth) <==> !Stops(h, refused, auth)
  {
    hide Mentions, AuthStart;
    AuthStartIsLatest(h);
  }

  /** After none of these failures there was a reason to stop; in particular none was for
      want of a common algorithm. */
  ghost predicate NoneStops(h: seq<Failure>, refused: nat, auth: nat) {
    && (forall f | f in h :: !Mentions(f.text, "no common algorithms"))
    && (forall k | 0 < k <= |h| :: !Stops(h[..k], refused, auth))
  }

  lemma RetriedUnlessStops(h: seq<Failure>, refused: nat, auth: nat, delay: nat)
    requires Spaced(h, delay)
    ensures AllRetried(h, refused, auth) <==> NoneStops(h, refused, auth)
  {
    hide TryAgain, Mentions;
    forall k | 0 < k <= |h| ensures TryAgain(h[..k], refused, auth) <==> !Stops(h[..k], refused, auth) {
      assert Spaced(h[..k], 0);
      TryAgainUnlessStops(h[..k], refused, auth);
    }
    forall f | f in h ensures Mentions(f.text, "no common algorithms") ==> exists k :: 0 < k <= |h| && Stops(h[..k], refused, auth) {
      var i :| 0 <= i < |h| && h[i] == f;
      assert h[..i + 1][|h[..i + 1]| - 1] == f;
      assert Mentions(f.text, "no common algorithms") ==> Stops(h[..i + 1], refused, auth);
    }
  }

  lemma GivenUpMeans(h: seq<Failure>, refused: nat, auth: nat, delay: nat)
    requires h != [] && Spaced(h, delay) && GivenUp(h, refused, auth)
    ensures Stops(h, refused, auth) && NoneStops(h[..|h| - 1], refused, auth)
  {
    hide TryAgain, Mentions, Stops, AllRetried, NoneStops;
    assert Spaced(h, 0) && Spaced(h[..|h| - 1], delay);
    TryAgainUnlessStops(h, refused, auth);
    RetriedUnlessStops(h[..|h| - 1], refused, auth, delay);
  }

  class SSHRetryStrategy {
    const connectionRefusedTimeout: nat
    const authFailureTimeout: nat
    var initialized: bool
    var startTime: int
    var authStartTime: int
    ghost var history: seq<Failure>

    ghost predicate Valid()
      reads this
    {
      && initialized == (history != [])
      && (initialized ==> startTime == history[0].now && authStartTime == AuthStart(history))
    }

    constructor (refused: nat, auth: nat)
      ensures Valid() && history == []
      ensures connectionRefusedTimeout == refused && authFailureTimeout == auth
    {
      connectionRefusedTimeout, authFailureTimeout := refused, auth;
      initialized, startTime, authStartTime, history := false, 0, 0, [];
    }

    /** Three fields are enough to answer as if all failures had been kept. */
    method IsRetryable(f: Failure) returns (again: bool)
      requires Valid()
      modifies this
      ensures Valid() && history == old(history) + [f]
      ensures Mentions(f.text, "no common algorithms") ==> !again
      ensures again == TryAgain(history, connectionRefusedTimeout, authFailureTimeout)
      ensures Spaced(history, 0) ==> again == !Stops(history, connectionRefusedTimeout, authFailureTimeout)
    {
      hide Mentions, Stops, Spaced;
      history := history + [f];
      assert history[..|history| - 1] == old(history);
      if Spaced(history, 0) {
        TryAgainUnlessStops(history, connectionRefusedTimeout, authFailureTimeout);
      }
      if !initialized {
        startTime, authStartTime := f.now, f.now;
        initialized := true;
      }
      if Mentions(f.text, "no common algorithms") {
        return false;
      }
      if Mentions(f.text, "unable to authenticate") {
        return f.now < authStartTime + authFailureTimeout;
      }
      authStartTime := f.now;
      return f.now < startTime + connectionRefusedTimeout;
    }
  }

  /** As long as one tries again, the clock for authentication starts within the time for
      connections, however the kinds of failures alternate. */
  lemma {:induction false} AuthStartIsEarly(h: seq<Failure>, refused: nat, auth: nat)
    requires h != [] && AllRetried(h, refused, auth)
    ensures AuthStart(h) <= h[0].now + refused
  {
    var last, before := h[|h| - 1], h[..|h| - 1];
    assert h[..|h|] == h;
    if Other(last) {
      assert TryAgain(h, refused, auth);
    } else if |h| > 1 {
      assert forall k | 0 < k <= |before| :: before[..k] == h[..k];
      AuthStartIsEarly(before, refused, auth);
    }
  }

  lemma RetriedBeforeDeadline(h: seq<Failure>, refused: nat, auth: nat)
    requires h != [] && AllRetried(h, refused, auth)
    ensures h[|h| - 1].now < h[0].now + refused + auth
  {
    assert h[..|h|] == h;
    AuthStartIsEarly(h, refused, auth);
    assert TryAgain(h, refused, auth);
  }

  lemma {:induction false} TimePasses(h: seq<Failure>, delay: nat)
    requires h != [] && Spaced(h, delay)
    ensures h[0].now + (|h| - 1) * delay <= h[|h| - 1].now
  {
    if |h| > 1 {
      TimePasses(h[..|h| - 1], delay);
      assert (|h| - 1) * delay == (|h| - 2) * delay + delay;
    }
  }

  /** No more retries than fit between the first failure and the deadline: both timeouts
      divided by the delay, rounded up. */
  lemma RetriesAreBounded(h: seq<Failure>, refused: nat, auth: nat, delay: nat)
    requires AllRetried(h, refused, auth) && Spaced(h, delay)
    ensures h != [] ==> (|h| - 1) * delay < refused + auth
  {
    if h != [] {
      RetriedBeforeDeadline(h, refused, auth);
      TimePasses(h, delay);
    }
  }

  /** Both timeouts can be used up: the deadline cannot be earlier. */
  lemma DeadlineIsReached(refused: nat, auth: nat, early: Failure, rejected: Failure) returns (h: seq<Failure>)
    requires refused > 0 && auth > 0
    requires Other(early) && UnableToAuthenticate(rejected)
    ensures h != [] && AllRetried(h, refused, auth)
    ensures h[|h| - 1].now == h[0].now + refused + auth - 2
  {
    hide Mentions;
    var first := early.now;
    var late, last := early.(now := first + refused - 1), rejected.(now := first + refused + auth - 2);
    h := [early, late, last];
    assert h[..1] == [early] && h[..2] == [early, late] && h[..3] == h;
    assert AuthStart(h[..2]) == late.now;
    assert h[|h| - 1] == last;
    assert AuthStart(h) == late.now;
  }

  /** The dial loop of Start. Attempts fail with any text or succeed at any time; the clock
      does not go backwards and the delay between attempts is real. Ends without a bound on
      the number of attempts in the code: connected, or with an answer not to try again. */
  method Dial(refused: nat, auth: nat, delay: nat)
    returns (connected: bool, attempts: nat, ghost failures: seq<Failure>)
    requires delay > 0
    ensures attempts == |failures| + if connected then 1 else 0
    ensures attempts > 0 && (attempts > 1 ==> (attempts - 2) * delay < refused + auth)
    ensures Spaced(failures, delay)
    ensures connected ==> NoneStops(failures, refused, auth)
    ensures !connected ==>
      failures != [] && Stops(failures, refused, auth) && NoneStops(failures[..|failures| - 1], refused, auth)
  {
    hide AllRetried, TryAgain, Spaced, GivenUp, Stops, NoneStops;
    var strategy := new SSHRetryStrategy(refused, auth);
    var clock: int := *;
    attempts, failures := 0, [];
    NoFailures(refused, auth, delay);
    while true
      invariant fresh(strategy) && strategy.Valid() && strategy.history == failures
      invariant strategy.connectionRefusedTimeout == refused && strategy.authFailureTimeout == auth
      invariant AllRetried(failures, refused, auth) && Spaced(failures, delay)
      invariant attempts == |failures|
      invariant failures != [] ==> failures[|failures| - 1].now + delay <= clock
      decreases if failures == [] then refused + auth + 1 else failures[0].now + refused + auth - failures[|failures| - 1].now
    {
      var took: nat, slept: nat, ok: bool, text: string := *, *, *, *;
      clock := clock + took;
      attempts := attempts + 1;
      RetriesAreBounded(failures, refused, auth, delay);
      if ok {
        RetriedUnlessStops(failures, refused, auth, delay);
        return true, attempts, failures;
      }
      var f := Failure(clock, text);
      OneMoreFailure(failures, f, refused, auth, delay);
      var again := strategy.IsRetryable(f);
      failures := failures + [f];
      if !again {
        GivenUpMeans(failures, refused, auth, delay);
        return false, attempts, failures;
      }
      RetriedBeforeDeadline(failures, refused, auth);
      clock := clock + delay + slept;
    }
  }

  /** The last of these failures, and only the last, was not to be retried. */
  ghost predicate GivenUp(h: seq<Failure>, refused: nat, auth: nat)
    requires h != []
  {
    !TryAgain(h, refused, auth) && AllRetried(h[..|h| - 1], refused, auth)
  }

  lemma NoFailures(refused: nat, auth: nat, delay: nat)
    ensures AllRetried([], refused, auth) && Spaced([], delay)
  {}

  lemma OneMoreFailure(h: seq<Failure>, f: Failure, refused: nat, auth: nat, delay: nat)
    requires AllRetried(h, refused, auth) && Spaced(h, delay)
    requires h != [] ==> h[|h| - 1].now + delay <= f.now
    ensures Spaced(h + [f], delay)
    ensures if TryAgain(h + [f], refused, auth) then AllRetried(h + [f], refused, auth) else GivenUp(h + [f], refused, auth)
  {
    hide TryAgain;
    var all := h + [f];
    assert all[..|all| - 1] == h && all[..|all|] == all;
    assert forall k | 0 < k <= |h| :: all[..k] == h[..k];
  }
}
