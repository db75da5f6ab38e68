/** Polling for a device login (`loginDevice` and `pollDevice` in credential/oauth/generic/oauth.go). The clock, the
    server and the caller's context are parameters: what they do in round `k` can be anything. */
module DevicePoll {
  import opened Text

  const SECOND: int := 1_000_000_000

  // ---------- one poll ----------

  datatype Reply = Unreachable | Answer(status: int, body: string, token: Option<string>)

  datatype Verdict = Pending | Failed | Granted(token: string)

  /** `pollDevice`; `token` is what the JSON library makes of the body. */
  function Classify(r: Reply): Verdict {
    match r
    case Unreachable => Failed
    case Answer(status, body, token) =>
      if status == 400 && Contains(body, "authorization_pending") then Pending
      else if status >= 400 || token.None? then Failed
      else Granted(token.value)
  }

  /** The other answer section 3.5 of RFC 8628 wants polled again, only slower, is a failure here; the loop ends at the
      first failure. */
  lemma SlowDownIsFailure(token: Option<string>)
    ensures Classify(Answer(400, "{\"error\":\"slow_down\"}", token)) == Failed
  {
    var body := "{\"error\":\"slow_down\"}";
    assert 'a' !in body;
    var wanted := "authorization_pending";
    assert |wanted| == 21 && wanted[0] == 'a';
    forall k | 0 <= k <= |body| ensures !OccursAt(body, k, wanted) {
      assert k + 21 <= |body| ==> body[k..k + 21][0] == body[k] && body[k] in body;
    }
  }

  /** What each reply means: the login is pending exactly when a status of 400 comes with a body that has
      `authorization_pending` somewhere in it, and granted exactly when a status under 400 comes with a token. */
  lemma WhatReplyMeans(r: Reply, token: string)
    ensures Classify(r) == Pending <==>
            r.Answer? && r.status == 400 && exists a: string, b: string :: r.body == a + "authorization_pending" + b
    ensures Classify(r) == Granted(token) <==> r.Answer? && r.status < 400 && r.token == Some(token)
  {
    hide Contains;
    if r.Answer? {
      ContainsSplits(r.body, "authorization_pending");
    }
  }

  lemma ContainsSplits(s: string, p: string)
    ensures Contains(s, p) <==> exists a: string, b: string :: s == a + p + b
  {
    if Contains(s, p) {
      var k :| 0 <= k <= |s| && OccursAt(s, k, p);
      assert s == s[..k] + p + s[k + |p|..];
    }
    if a: string, b: string :| s == a + p + b {
      assert s[|a|..|a| + |p|] == p;
      assert OccursAt(s, |a|, p);
    }
  }

  // ---------- the loop ----------

  /** When round `k` checks the deadline, and when its wait is over and it polls. */
  datatype Clock = Clock(start: int, check: nat -> int, poll: nat -> int)

  /** Time does not go back, and a wait lasts at least as long as asked. */
  ghost predicate Runs(c: Clock, iv: int) {
    && c.start <= c.check(0)
    && forall k: nat :: c.check(k) + iv * SECOND <= c.poll(k) <= c.check(k + 1)
  }

  datatype Login = Token(token: string) | Refused | TimedOut | Interrupted

  /** How many intervals cover a time. */
  function CeilDiv(a: nat, b: nat): nat
    requires b > 0
  {
    (a + b - 1) / b
  }

  lemma CeilDivIs(a: nat, b: nat, n: nat)
    requires b > 0
    ensures n <= CeilDiv(a, b) <==> n == 0 || (n - 1) * b < a
  {
    var q := CeilDiv(a, b);
    assert q * b <= a + b - 1 < q * b + b;
    if 0 < n <= q {
      Monotone(n, q, b);
    } else if n > q {
      Monotone(q, n - 1, b);
    }
  }

  lemma Monotone(a: int, b: int, c: int)
    requires a <= b && 0 <= c
    ensures a * c <= b * c
  {
  }

  function Lifetime(expiresIn: int): nat {
    if expiresIn < 0 then 0 else expiresIn
  }

  lemma OneMorePoll(polls: nat, interval: nat, expiresIn: int, start: int, check: int)
    requires interval > 0 && start + polls * interval * SECOND <= check < start + expiresIn * SECOND
    ensures polls * interval < expiresIn && polls + 1 <= CeilDiv(Lifetime(expiresIn), interval)
  {
    hide CeilDiv;
    assert polls * interval * SECOND < expiresIn * SECOND;
    CeilDivIs(Lifetime(expiresIn), interval, polls + 1);
  }

  /** Waits add up. */
  lemma {:induction false} WaitsAddUp(c: Clock, iv: nat, k: nat)
    requires Runs(c, iv)
    ensures c.check(k) >= c.start + k * iv * SECOND && c.poll(k) >= c.start + (k + 1) * iv * SECOND
  {
    if k > 0 {
      WaitsAddUp(c, iv, k - 1);
    }
    assert (k + 1) * iv * SECOND == k * iv * SECOND + iv * SECOND;
  }

  /** The polling loop always ends, after at most ceil(expires_in / interval) polls, where the interval is 5 seconds when
      the server gives none (section 3.2 of RFC 8628), none of them earlier than its share of whole intervals after the
      start; every poll but the last was answered `pending`; and the last one decides. */
  method LoginDevice(given: int, expiresIn: int, clock: Clock, reply: nat -> Reply, cancelled: nat -> bool)
    returns (r: Login, polls: nat)
    requires Runs(clock, if given <= 0 then 5 else given)
    ensures polls <= CeilDiv(Lifetime(expiresIn), if given <= 0 then 5 else given)
    ensures polls > 0 ==> (polls - 1) * (if given <= 0 then 5 else given) < expiresIn
    ensures forall k: nat | k < polls ::
              clock.poll(k) >= clock.start + (k + 1) * (if given <= 0 then 5 else given) * SECOND
    ensures forall k: nat | k < polls :: clock.check(k) < clock.start + expiresIn * SECOND && !cancelled(k)
    ensures forall k: nat | k + 1 < polls :: Classify(reply(k)) == Pending
    ensures r == TimedOut ==> clock.check(polls) >= clock.start + expiresIn * SECOND
    ensures r == Interrupted ==> cancelled(polls)
    ensures r == TimedOut || r == Interrupted ==> forall k: nat | k < polls :: Classify(reply(k)) == Pending
    ensures r == Refused ==> polls > 0 && Classify(reply(polls - 1)) == Failed
    ensures r.Token? ==> polls > 0 && Classify(reply(polls - 1)) == Granted(r.token)
  {
    hide Classify, CeilDiv, Runs;
    var interval := given;
    if interval <= 0 {
      interval := 5;
    }
    var deadline := clock.start + expiresIn * SECOND;
    polls := 0;
    CeilDivIs(Lifetime(expiresIn), interval, 0);
    while clock.check(polls) < deadline
      invariant polls <= CeilDiv(Lifetime(expiresIn), interval) && (polls > 0 ==> (polls - 1) * interval < expiresIn)
      invariant forall k: nat | k < polls :: clock.poll(k) >= clock.start + (k + 1) * interval * SECOND
      invariant forall k: nat | k < polls :: clock.check(k) < deadline && !cancelled(k)
      invariant forall k: nat | k < polls :: Classify(reply(k)) == Pending
      decreases CeilDiv(Lifetime(expiresIn), interval) - polls
    {
      if cancelled(polls) {
        return Interrupted, polls;
      }
      WaitsAddUp(clock, interval, polls);
      OneMorePoll(polls, interval, expiresIn, clock.start, clock.check(polls));
      var verdict := Classify(reply(polls));
      polls := polls + 1;
      match verdict {
        case Pending =>
        case Failed => return Refused, polls;
        case Granted(token) => return Token(token), polls;
      }
    }
    r := TimedOut;
  }

  // ---------- how good the bound is ----------

  /** Rounds that take no time of their own. */
  ghost predicate Ideal(c: Clock, iv: int) {
    forall k: nat :: c.check(k) == c.start + k * iv * SECOND && c.poll(k) == c.start + (k + 1) * iv * SECOND
  }

  /** The bound is met: on an ideal clock, a login that times out made exactly ceil(expires_in / interval) polls.
      The deadline is checked before the wait, so the last of them starts after the code has expired unless
      the interval divides the lifetime. */
  lemma TimedOutOnIdealClock(iv: int, expiresIn: int, clock: Clock, polls: nat)
    requires iv > 0 && Ideal(clock, iv)
    requires forall k: nat | k < polls :: clock.check(k) < clock.start + expiresIn * SECOND
    requires clock.check(polls) >= clock.start + expiresIn * SECOND
    ensures polls == CeilDiv(Lifetime(expiresIn), iv)
    ensures polls > 0 ==> (clock.poll(polls - 1) <= clock.start + expiresIn * SECOND <==> expiresIn % iv == 0)
  {
    hide CeilDiv;
    var life := Lifetime(expiresIn);
    assert polls * iv * SECOND >= expiresIn * SECOND;
    assert polls * iv >= expiresIn;
    CeilDivIs(life, iv, polls);
    CeilDivIs(life, iv, polls + 1);
    assert (polls + 1 - 1) * iv == polls * iv;
    assert polls * iv >= 0;
    if polls > 0 {
      assert clock.check(polls - 1) < clock.start + expiresIn * SECOND;
      assert (polls - 1) * iv < expiresIn;
      Divides(expiresIn, iv, polls);
    }
  }

  lemma Divides(a: int, b: int, n: nat)
    requires b > 0 && (n - 1) * b < a <= n * b
    ensures a == n * b <==> a % b == 0
  {
    var q := a / b;
    assert a == q * b + a % b;
    if a == n * b {
      if q < n { Monotone(q + 1, n, b); }
      if q > n { Monotone(n + 1, q, b); }
    } else if a % b == 0 {
      if q >= n { Monotone(n, q, b); } else { Monotone(q, n - 1, b); }
    }
  }
}
