/*
 * Client-side helpers next to the Supabase client: a per-user fixed-window
 * rate limiter and the "rotate this key soon" check. The clock is passed in
 * as `now` (milliseconds); the limiter's table is explicit state.
 */
module Supabase {
  import opened Wrappers

  // ------------------------------------------------------------ key rotation

  const MillisPerDay: int := 1000 * 60 * 60 * 24
  const RotationWarningDays: int := 7

  /**
   * Whether a key is due for rotation: the whole days left until the
   * rotation date, rounded down, are at most seven. An unparsable date
   * (None) compares false, so it never asks for rotation.
   */
  function NeedsRotation(rotation: Option<int>, now: int): (r: bool)
    ensures rotation.None? ==> !r
    ensures rotation.Some? ==> (r <==> rotation.value - now < (RotationWarningDays + 1) * MillisPerDay)
  {
    match rotation
    case None => false
    case Some(at) => (at - now) / MillisPerDay <= RotationWarningDays
  }

  /** A rotation date already passed is always due. */
  lemma PastRotationIsDue(at: int, now: int)
    requires at <= now
    ensures NeedsRotation(Some(at), now)
  {
  }

  /** Moving the clock forward never takes a due key off the list. */
  lemma RotationDueStaysDue(at: int, now: int, later: int)
    requires now <= later && NeedsRotation(Some(at), now)
    ensures NeedsRotation(Some(at), later)
  {
  }

  // ------------------------------------------------------------ rate limiting

  const WindowMillis: int := 60000

  /** One user's window: calls allowed so far and the last instant it covers. */
  datatype Window = Window(count: int, resetTime: int)

  type Limits = map<string, Window>

  /** A call with no window, or after the window's last instant, opens a new one. */
  predicate Opens(limits: Limits, user: string, now: int) {
    user !in limits || now > limits[user].resetTime
  }

  /**
   * One call: a new window counts it and allows it; inside a window a call
   * is refused once `limit` calls were counted, and otherwise counted and
   * allowed. Only the caller's entry can change.
   */
  function CheckRateLimit(limits: Limits, user: string, limit: int, now: int): (r: (Limits, bool))
    ensures Opens(limits, user, now) ==> r == (limits[user := Window(1, now + WindowMillis)], true)
    ensures !Opens(limits, user, now) && limits[user].count >= limit ==> r == (limits, false)
    ensures !Opens(limits, user, now) && limits[user].count < limit ==>
      r.1 && user in r.0 && r.0[user] == limits[user].(count := limits[user].count + 1)
    ensures forall u :: u != user ==> (u in r.0 <==> u in limits) && (u in limits ==> r.0[u] == limits[u])
    ensures user in r.0
  {
    if Opens(limits, user, now) then (limits[user := Window(1, now + WindowMillis)], true)
    else
      var w := limits[user];
      if w.count >= limit then (limits, false)
      else (limits[user := w.(count := w.count + 1)], true)
  }

  /** A run of calls by one user at the given instants, with the answers in order. */
  function Calls(limits: Limits, user: string, limit: int, times: seq<int>): (r: (Limits, seq<bool>))
    ensures |r.1| == |times|
    decreases |times|
  {
    if |times| == 0 then (limits, [])
    else
      var (next, ok) := CheckRateLimit(limits, user, limit, times[0]);
      var (last, rest) := Calls(next, user, limit, times[1..]);
      (last, [ok] + rest)
  }

  /**
   * Inside a window that already counted c calls, the i-th further call is
   * allowed exactly when c + i is still below the limit.
   */
  lemma {:induction false} CallsInsideWindow(limits: Limits, user: string, limit: int, times: seq<int>)
    requires user in limits
    requires forall i :: 0 <= i < |times| ==> times[i] <= limits[user].resetTime
    ensures forall i :: 0 <= i < |times| ==>
      (Calls(limits, user, limit, times).1[i] <==> limits[user].count + i < limit)
    decreases |times|
  {
    if |times| > 0 {
      var (next, ok) := CheckRateLimit(limits, user, limit, times[0]);
      var c := limits[user].count;
      assert next[user].resetTime == limits[user].resetTime;
      assert next[user].count == if c < limit then c + 1 else c;
      CallsInsideWindow(next, user, limit, times[1..]);
      var answers := Calls(limits, user, limit, times).1;
      var rest := Calls(next, user, limit, times[1..]).1;
      assert answers == [ok] + rest;
      forall i | 1 <= i < |times|
        ensures answers[i] <==> c + i < limit
      {
        assert answers[i] == rest[i - 1];
        assert 0 <= i - 1 < |times[1..]|;
        assert rest[i - 1] <==> next[user].count + (i - 1) < limit;
      }
    }
  }

  /** How many calls a window lets through: the limit, but never fewer than the one that opened it. */
  function Allowance(limit: int): (n: int)
    ensures n >= 1 && n >= limit
    ensures limit >= 1 ==> n == limit
  {
    if limit < 1 then 1 else limit
  }

  /**
   * A burst of calls falling in the window its first call opens: exactly
   * the first `Allowance(limit)` are allowed and the rest refused, so for a
   * positive limit at most `limit` calls pass, and even a limit of zero or
   * less lets the first one through.
   */
  lemma {:induction false} BurstAllowsFirstOnly(limits: Limits, user: string, limit: int, times: seq<int>)
    requires |times| > 0 && Opens(limits, user, times[0])
    requires forall i :: 0 <= i < |times| ==> times[i] <= times[0] + WindowMillis
    ensures forall i :: 0 <= i < |times| ==>
      (Calls(limits, user, limit, times).1[i] <==> i < Allowance(limit))
  {
    var (next, ok) := CheckRateLimit(limits, user, limit, times[0]);
    assert next[user] == Window(1, times[0] + WindowMillis);
    assert forall j :: 0 <= j < |times[1..]| ==> times[1..][j] <= next[user].resetTime;
    CallsInsideWindow(next, user, limit, times[1..]);
    var answers := Calls(limits, user, limit, times).1;
    var rest := Calls(next, user, limit, times[1..]).1;
    assert answers == [ok] + rest;
    forall i | 1 <= i < |times|
      ensures answers[i] <==> i < Allowance(limit)
    {
      assert answers[i] == rest[i - 1];
      assert 0 <= i - 1 < |times[1..]|;
      assert rest[i - 1] <==> 1 + (i - 1) < limit;
    }
  }

  function CountAllowed(answers: seq<bool>): (n: nat)
    ensures n <= |answers|
  {
    if |answers| == 0 then 0 else (if answers[0] then 1 else 0) + CountAllowed(answers[1..])
  }

  /** Answers that are true exactly on a prefix of length k count min(k, length). */
  lemma {:induction false} CountPrefix(answers: seq<bool>, k: int)
    requires k >= 0
    requires forall i :: 0 <= i < |answers| ==> (answers[i] <==> i < k)
    ensures CountAllowed(answers) == if k < |answers| then k else |answers|
    decreases |answers|
  {
    if |answers| > 0 {
      var k' := if k > 0 then k - 1 else 0;
      assert forall i :: 0 <= i < |answers[1..]| ==> answers[1..][i] == answers[i + 1];
      CountPrefix(answers[1..], k');
    }
  }

  /** For a positive limit, a burst inside one window gets at most `limit` calls through. */
  lemma BurstCountAtMostLimit(limits: Limits, user: string, limit: int, times: seq<int>)
    requires limit >= 1 && |times| > 0 && Opens(limits, user, times[0])
    requires forall i :: 0 <= i < |times| ==> times[i] <= times[0] + WindowMillis
    ensures CountAllowed(Calls(limits, user, limit, times).1) <= limit
  {
    BurstAllowsFirstOnly(limits, user, limit, times);
    assert Allowance(limit) == limit;
    CountPrefix(Calls(limits, user, limit, times).1, limit);
  }
}
