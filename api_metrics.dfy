/**
 * The adoption metrics of the calling user (backend/app/api/metrics.py):
 * the window is clamped to between 1 and 365 days, the user's sessions
 * created inside it are counted, and the two user counts and the rate are
 * derived from that one count. Time is integer seconds; the rate is a
 * `real`.
 */
module ApiMetrics {

  /** The columns of a ResearchSession row the count reads. */
  datatype SessionStamp = SessionStamp(userId: int, createdAt: int)

  datatype Metrics = Metrics(
    windowDays: int,
    userId: int,
    sessionsInWindow: int,
    eligibleUsers: int,
    usersWith2plusSessions: int,
    adoptionRate: real)

  const SecondsPerDay := 86400
  const MaxDays := 365

  /** max(1, min(days, 365)). */
  function ClampDays(days: int): int {
    var m := if days < MaxDays then days else MaxDays;
    if 1 < m then m else 1
  }

  /** The clamp keeps days in range and moves any other value to the nearer bound. */
  lemma ClampBounds(days: int)
    ensures 1 <= ClampDays(days) <= MaxDays
    ensures 1 <= days <= MaxDays ==> ClampDays(days) == days
    ensures days < 1 ==> ClampDays(days) == 1
    ensures days > MaxDays ==> ClampDays(days) == MaxDays
  {
  }

  /** SELECT count(id) WHERE user_id = userId AND created_at >= start. */
  function CountInWindow(rows: seq<SessionStamp>, userId: int, start: int): (c: nat)
    ensures c <= |rows|
  {
    if rows == [] then 0
    else
      var n := |rows| - 1;
      CountInWindow(rows[..n], userId, start) + (if rows[n].userId == userId && rows[n].createdAt >= start then 1 else 0)
  }

  /** adoption_metrics, with the table's rows and the current time given. */
  function AdoptionMetrics(days: int, userId: int, rows: seq<SessionStamp>, now: int): Metrics {
    var d := ClampDays(days);
    var count := CountInWindow(rows, userId, now - d * SecondsPerDay);
    var eligible := if count >= 1 then 1 else 0;
    var twoPlus := if count >= 2 then 1 else 0;
    var rate := if eligible != 0 then twoPlus as real / eligible as real else 0.0;
    Metrics(d, userId, count, eligible, twoPlus, rate)
  }

  /**
   * The derived figures: eligible is 1 exactly when a session is in the
   * window, two-plus is 1 exactly when two are (so never above eligible),
   * and the rate is 1.0 exactly when two-plus is 1 and 0.0 otherwise.
   */
  lemma MetricsShape(days: int, userId: int, rows: seq<SessionStamp>, now: int)
    ensures var m := AdoptionMetrics(days, userId, rows, now);
      && m.windowDays == ClampDays(days) && m.userId == userId
      && 0 <= m.sessionsInWindow <= |rows|
      && (m.eligibleUsers == 1 <==> m.sessionsInWindow >= 1)
      && (m.eligibleUsers == 0 <==> m.sessionsInWindow == 0)
      && (m.usersWith2plusSessions == 1 <==> m.sessionsInWindow >= 2)
      && (m.usersWith2plusSessions == 0 <==> m.sessionsInWindow < 2)
      && m.usersWith2plusSessions <= m.eligibleUsers
      && (m.adoptionRate == 1.0 <==> m.usersWith2plusSessions == 1)
      && (m.adoptionRate == 0.0 <==> m.usersWith2plusSessions == 0)
  {
  }

  /** Only the user's own sessions are counted. */
  lemma {:induction false} CountIsOwn(rows: seq<SessionStamp>, userId: int, start: int)
    requires forall k :: 0 <= k < |rows| ==> rows[k].userId != userId
    ensures CountInWindow(rows, userId, start) == 0
  {
    if rows != [] {
      CountIsOwn(rows[..|rows| - 1], userId, start);
    }
  }

  /** An earlier window start counts at least as many sessions. */
  lemma {:induction false} CountMonotone(rows: seq<SessionStamp>, userId: int, start: int, start': int)
    requires start' <= start
    ensures CountInWindow(rows, userId, start) <= CountInWindow(rows, userId, start')
  {
    if rows != [] {
      CountMonotone(rows[..|rows| - 1], userId, start, start');
    }
  }

  /** Asking for a longer window (within the clamp) never lowers the count. */
  lemma LongerWindowCountsMore(days: int, days': int, userId: int, rows: seq<SessionStamp>, now: int)
    requires days <= days'
    ensures AdoptionMetrics(days, userId, rows, now).sessionsInWindow
         <= AdoptionMetrics(days', userId, rows, now).sessionsInWindow
  {
    CountMonotone(rows, userId, now - ClampDays(days) * SecondsPerDay, now - ClampDays(days') * SecondsPerDay);
  }
}
