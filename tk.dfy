/**
 * The `tk` session: tossups played back to back, one counter per outcome,
 * until the player ends a tossup with the end command or sends it during
 * the short pause after a tossup; then `send_tk_end_stats` reports the
 * counts, the points and the points per twenty tossups.
 */
module Tk {
  import opened Wrappers
  import opened Buzz

  /** The `tk_stats` dictionary. */
  datatype Stats = Stats(power: nat, correct: nat, neg: nat, dead: nat)

  /** One tossup of the session: its outcome, and whether the end command came in the pause after it. */
  datatype Round = Round(outcome: Outcome, endInPause: bool)

  const Zero := Stats(0, 0, 0, 0)

  /** The counter `outcome` increments; the end outcome increments none. */
  function Record(s: Stats, outcome: Outcome): Stats {
    match outcome
    case Power => s.(power := s.power + 1)
    case Correct => s.(correct := s.correct + 1)
    case Neg => s.(neg := s.neg + 1)
    case Dead => s.(dead := s.dead + 1)
    case EndedByUser => s
  }

  /** `sum(stats.values())`, the number of tossups played. */
  function Total(s: Stats): nat {
    s.power + s.correct + s.neg + s.dead
  }

  /** Points: 15 per power, 10 per ten, -5 per neg, nothing for a dead tossup. */
  function Points(s: Stats): int {
    s.power * 15 + s.correct * 10 - s.neg * 5
  }

  /** What one outcome is worth on its own. */
  function Value(outcome: Outcome): int {
    match outcome
    case Power => 15
    case Correct => 10
    case Neg => -5
    case Dead => 0
    case EndedByUser => 0
  }

  /** Recording an outcome other than the end adds one tossup and exactly that outcome's value. */
  lemma RecordAddsOne(s: Stats, outcome: Outcome)
    requires !outcome.EndedByUser?
    ensures Total(Record(s, outcome)) == Total(s) + 1
    ensures Points(Record(s, outcome)) == Points(s) + Value(outcome)
  {
  }

  /** The session from the given counters on: the final counters, and whether the player ended it. */
  function Run(s: Stats, rounds: seq<Round>): (Stats, bool)
    decreases |rounds|
  {
    if rounds == [] then (s, false)
    else if rounds[0].outcome.EndedByUser? then (s, true)
    else
      var s' := Record(s, rounds[0].outcome);
      if rounds[0].endInPause then (s', true) else Run(s', rounds[1..])
  }

  /** The `tk` command's loop, from the zeroed counters to the end of the session. */
  method TkSession(rounds: seq<Round>) returns (stats: Stats, ended: bool)
    ensures (stats, ended) == Run(Zero, rounds)
  {
    stats := Stats(0, 0, 0, 0);
    var i := 0;
    while i < |rounds|
      invariant 0 <= i <= |rounds|
      invariant Run(stats, rounds[i..]) == Run(Zero, rounds)
      decreases |rounds| - i
    {
      var round := rounds[i];
      assert rounds[i..][1..] == rounds[i + 1..];
      match round.outcome {
        case EndedByUser =>
          return stats, true;
        case Power =>
          stats := stats.(power := stats.power + 1);
        case Correct =>
          stats := stats.(correct := stats.correct + 1);
        case Neg =>
          stats := stats.(neg := stats.neg + 1);
        case Dead =>
          stats := stats.(dead := stats.dead + 1);
      }
      if round.endInPause {
        return stats, true;
      }
      i := i + 1;
    }
    return stats, false;
  }

  /** The outcomes the session counts: every round up to the one that ends it, without an end outcome. */
  function Played(rounds: seq<Round>): (os: seq<Outcome>)
    ensures forall k :: 0 <= k < |os| ==> !os[k].EndedByUser?
    decreases |rounds|
  {
    if rounds == [] || rounds[0].outcome.EndedByUser? then []
    else if rounds[0].endInPause then [rounds[0].outcome]
    else [rounds[0].outcome] + Played(rounds[1..])
  }

  /** How many times `o` occurs. */
  function Count(os: seq<Outcome>, o: Outcome): nat {
    if os == [] then 0 else (if os[0] == o then 1 else 0) + Count(os[1..], o)
  }

  /** The sum of the outcomes' values. */
  function Sum(os: seq<Outcome>): int {
    if os == [] then 0 else Value(os[0]) + Sum(os[1..])
  }

  /**
   * The session's counters are the counts of the outcomes it played added
   * to where it started, and its points grow by the sum of their values.
   */
  lemma {:induction false} RunCounts(s: Stats, rounds: seq<Round>)
    ensures var r := Run(s, rounds).0;
            var os := Played(rounds);
            && r == Stats(s.power + Count(os, Power), s.correct + Count(os, Correct),
                          s.neg + Count(os, Neg), s.dead + Count(os, Dead))
            && Total(r) == Total(s) + |os|
            && Points(r) == Points(s) + Sum(os)
    decreases |rounds|
  {
    if rounds != [] && !rounds[0].outcome.EndedByUser? {
      var o := rounds[0].outcome;
      RecordAddsOne(s, o);
      var os := Played(rounds);
      if rounds[0].endInPause {
        assert os == [o] && os[1..] == [];
      } else {
        RunCounts(Record(s, o), rounds[1..]);
        assert os[0] == o && os[1..] == Played(rounds[1..]);
      }
    }
  }

  /** The session ends iff some round ends it: an end outcome or the end command in a pause. */
  lemma {:induction false} RunEnds(s: Stats, rounds: seq<Round>)
    ensures Run(s, rounds).1 <==> exists k :: 0 <= k < |rounds| && (rounds[k].outcome.EndedByUser? || rounds[k].endInPause)
    decreases |rounds|
  {
    if rounds != [] && !rounds[0].outcome.EndedByUser? && !rounds[0].endInPause {
      RunEnds(Record(s, rounds[0].outcome), rounds[1..]);
      if Run(s, rounds).1 {
        var k :| 0 <= k < |rounds[1..]| && (rounds[1..][k].outcome.EndedByUser? || rounds[1..][k].endInPause);
        assert rounds[k + 1] == rounds[1..][k];
      } else {
        forall k | 0 < k < |rounds| ensures !(rounds[k].outcome.EndedByUser? || rounds[k].endInPause) {
          assert rounds[k] == rounds[1..][k - 1];
        }
      }
    }
  }

  // ---------------------------------------------------------------- end stats

  /**
   * The fields of the end-of-session embed: tossups, the four counts, the
   * points and the points per twenty tossups, which is absent when no
   * tossup was played (the embed then shows a fallback sentence).
   */
  datatype Summary = Summary(tossups: nat, power: nat, correct: nat, neg: nat, dead: nat,
                             points: int, pp20: Option<real>)

  /** `send_tk_end_stats`, with the rate as an exact fraction. */
  function EndStats(s: Stats): (r: Summary)
    ensures r.tossups == Total(s) && r.points == Points(s)
    ensures r.pp20.Some? <==> Total(s) > 0
    ensures r.pp20.Some? ==> r.pp20.value * (Total(s) as real) == 20.0 * (Points(s) as real)
  {
    var total := Total(s);
    var points := Points(s);
    Summary(total, s.power, s.correct, s.neg, s.dead, points,
            if total > 0 then Some(points as real / total as real * 20.0) else None)
  }

  /** The rate lies between -100 (every tossup a neg) and 300 (every tossup a power). */
  lemma RateBounds(s: Stats)
    requires Total(s) > 0
    ensures -100.0 <= EndStats(s).pp20.value <= 300.0
  {
    var t, p := Total(s), Points(s);
    assert -5 * t <= p <= 15 * t;
    assert -5.0 * (t as real) <= p as real <= 15.0 * (t as real);
    RatioBounds(EndStats(s).pp20.value, t as real, p as real);
  }

  /** A rate `r` with `r * t == 20 * p` and `p` between -5 and 15 times `t` lies between -100 and 300. */
  lemma RatioBounds(r: real, t: real, p: real)
    requires t > 0.0 && r * t == 20.0 * p && -5.0 * t <= p <= 15.0 * t
    ensures -100.0 <= r <= 300.0
  {
    CancelFactor(-100.0, r, t);
    CancelFactor(r, 300.0, t);
  }

  lemma CancelFactor(a: real, b: real, t: real)
    requires t > 0.0 && a * t <= b * t
    ensures a <= b
  {
  }

  /** A session of power, ten, neg and dead tossups: 20 points over 4 tossups, 100 per twenty. */
  lemma EndStatsExample()
    ensures EndStats(Stats(1, 1, 1, 1)) == Summary(4, 1, 1, 1, 1, 20, Some(100.0))
  {
  }
}
