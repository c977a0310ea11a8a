/** Keep-alive checks (section 3.1.2.10 of MQTT 3.1.1): when a silent connection is noticed.
    All times are in microseconds. */
module KeepAlive {

  /** The two fields a keep-alive check looks at. */
  datatype Watch = Watch(due: nat, outstanding: bool)

  datatype Verdict = Quiet | Pinged | Disconnected

  /** One check at instant `at`; when it sends a ping, the ping timer is armed again at `armed`. */
  datatype Check = Check(at: nat, armed: nat, verdict: Verdict)

  /** What a check does to the watch, for a keep-alive interval of `k`. A ping that cannot be sent
      also leads to a disconnect. */
  predicate CheckStep(w: Watch, c: Check, k: nat, w': Watch) {
    match c.verdict
    case Quiet => c.at < w.due && w' == w
    case Pinged => c.at >= w.due && !w.outstanding && c.armed >= c.at && w' == Watch(c.armed + k, true)
    case Disconnected => c.at >= w.due
  }

  /** Checks without a PINGRESP between them: only the checks change the watch. */
  ghost predicate SilentRun(ws: seq<Watch>, cs: seq<Check>, k: nat) {
    && |ws| == |cs| + 1
    && forall i | 0 <= i < |cs| :: CheckStep(ws[i], cs[i], k, ws[i + 1])
  }

  /** Checks are at most `g` apart, the first at most `g` after `t0`, and a send takes at most `d`. */
  ghost predicate Regular(cs: seq<Check>, t0: nat, g: nat, d: nat) {
    && (|cs| > 0 ==> t0 <= cs[0].at <= t0 + g)
    && (forall i | 0 <= i < |cs| - 1 :: cs[i].at <= cs[i + 1].at <= cs[i].at + g)
    && (forall i | 0 <= i < |cs| && cs[i].verdict == Pinged :: cs[i].armed <= cs[i].at + d)
  }

  lemma {:induction false} WatchStaysBounded(ws: seq<Watch>, cs: seq<Check>, t0: nat, k: nat, g: nat, d: nat, n: nat)
    requires SilentRun(ws, cs, k) && Regular(cs, t0, g, d)
    requires ws[0] == Watch(t0 + k, false)
    requires n <= |cs|
    requires forall i | 0 <= i < n :: cs[i].verdict != Disconnected
    ensures !ws[n].outstanding ==> ws[n].due == t0 + k
    ensures ws[n].outstanding ==> ws[n].due <= t0 + 2 * k + g + d
    ensures n > 0 && k > 0 ==> cs[n - 1].at < ws[n].due
    decreases n
  {
    if n > 0 {
      WatchStaysBounded(ws, cs, t0, k, g, d, n - 1);
      assert CheckStep(ws[n - 1], cs[n - 1], k, ws[n]);
      if cs[n - 1].verdict == Pinged {
        assert cs[n - 1].at <= t0 + k + g by {
          if n > 1 {
            assert cs[n - 2].at <= cs[n - 2 + 1].at <= cs[n - 2].at + g;
          }
        }
      }
    }
  }

  /** A connection from which nothing comes back is noticed: if a check happens at or after
      t0 + 2k + g + d, then some check has led to a disconnect by t0 + 2k + 2g + d. With
      instantaneous sends (d = 0) the bound is t0 + 2k + 2g. */
  lemma SilenceIsNoticed(ws: seq<Watch>, cs: seq<Check>, t0: nat, k: nat, g: nat, d: nat) returns (i: nat)
    requires SilentRun(ws, cs, k) && Regular(cs, t0, g, d)
    requires ws[0] == Watch(t0 + k, false) && k > 0
    requires |cs| > 0 && cs[|cs| - 1].at >= t0 + 2 * k + g + d
    ensures i < |cs| && cs[i].verdict == Disconnected && cs[i].at <= t0 + 2 * k + 2 * g + d
    ensures forall j | 0 <= j < i :: cs[j].verdict != Disconnected
  {
    i := 0;
    while i < |cs| && cs[i].verdict != Disconnected
      invariant i <= |cs|
      invariant forall j | 0 <= j < i :: cs[j].verdict != Disconnected
    {
      i := i + 1;
    }
    WatchStaysBounded(ws, cs, t0, k, g, d, i);
    if i > 0 && i < |cs| {
      assert cs[i - 1].at <= cs[i - 1 + 1].at <= cs[i - 1].at + g;
    }
  }

  /** At most one ping is ever sent on a silent connection. */
  lemma {:induction false} OnePingWhileSilent(ws: seq<Watch>, cs: seq<Check>, k: nat, i: nat, j: nat)
    requires SilentRun(ws, cs, k)
    requires i < j < |cs| && cs[i].verdict == Pinged
    requires forall m | i <= m < j :: cs[m].verdict != Disconnected
    ensures cs[j].verdict != Pinged && ws[j].outstanding
    decreases j
  {
    assert CheckStep(ws[j], cs[j], k, ws[j + 1]);
    assert CheckStep(ws[j - 1], cs[j - 1], k, ws[j - 1 + 1]);
    if i < j - 1 {
      OnePingWhileSilent(ws, cs, k, i, j - 1);
    }
  }

  // ---------- The silence a client keeps track of ----------

  /** What has happened since the ping timer was last armed with no ping outstanding, at `start`: by
      an accepted connection or by a PINGRESP. */
  datatype Silence = Silence(start: nat, watches: seq<Watch>, checks: seq<Check>)

  function Begin(now: nat, k: nat): (s: Silence) {
    Silence(now, [Watch(now + k, false)], [])
  }

  function After(s: Silence, c: Check, w: Watch): (r: Silence) {
    Silence(s.start, s.watches + [w], s.checks + [c])
  }

  /** The checks of `s` have led to the watch `w`, and none of them to a disconnect. */
  ghost predicate Follows(s: Silence, w: Watch, k: nat) {
    && SilentRun(s.watches, s.checks, k)
    && s.watches[0] == Watch(s.start + k, false)
    && s.watches[|s.checks|] == w
    && forall i | 0 <= i < |s.checks| :: s.checks[i].verdict != Disconnected
  }

  lemma FollowsBegin(now: nat, k: nat)
    ensures Follows(Begin(now, k), Watch(now + k, false), k)
  {
  }

  lemma FollowsAfter(s: Silence, w: Watch, c: Check, w': Watch, k: nat)
    requires Follows(s, w, k) && CheckStep(w, c, k, w') && c.verdict != Disconnected
    ensures Follows(After(s, c, w'), w', k)
  {
  }

  /** As long as a silent connection is kept, every check so far was before t0 + 2k + g + d. Together
      with the gap g to the next check this is when the disconnect is noticed at the latest. */
  lemma KeptMeansRecent(s: Silence, w: Watch, k: nat, g: nat, d: nat)
    requires Follows(s, w, k) && Regular(s.checks, s.start, g, d)
    requires k > 0 && |s.checks| > 0
    ensures s.checks[|s.checks| - 1].at < s.start + 2 * k + g + d
  {
    WatchStaysBounded(s.watches, s.checks, s.start, k, g, d, |s.checks|);
  }

  /** A check `c` after a silence `s` that leads to no disconnect was made in time, for any regularity
      that the checks so far and this one have. */
  ghost predicate NoticedInTime(s: Silence, c: Check, k: nat, disconnected: bool) {
    forall g: nat, d: nat :: Regular(s.checks + [c], s.start, g, d) && c.at >= s.start + 2 * k + g + d ==> disconnected
  }

  lemma CheckIsInTime(s: Silence, w: Watch, c: Check, w': Watch, k: nat)
    requires Follows(s, w, k) && CheckStep(w, c, k, w') && k > 0
    ensures NoticedInTime(s, c, k, c.verdict == Disconnected)
  {
    if c.verdict != Disconnected {
      FollowsAfter(s, w, c, w', k);
      forall g: nat, d: nat | Regular(s.checks + [c], s.start, g, d)
        ensures c.at < s.start + 2 * k + g + d
      {
        KeptMeansRecent(After(s, c, w'), w', k, g, d);
      }
    }
  }
}
