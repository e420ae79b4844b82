/** What the loop does when the device's bytes arrive split over several deliveries. */
module Delivery {
  import opened Wrappers
  import opened Scanner
  import opened Session
  import opened Protocol
  import opened StepProperties
  import opened Driver

  /** The loop's result depends on how the device's bytes are split into deliveries.
      The last "Complete block" line arriving together with the prompt ends the
      session; the same line delivered alone is consumed as a progress line, and the
      prompt delivered after it is left pending, with no marker to act on. */
  lemma SplitDelivery(n: nat, cfg: Config)
    requires Unpreempted(NumberLine(BlockComplete, n) + Ready, BlockComplete)
    ensures var line := NumberLine(BlockComplete, n);
            Drain(line + Ready, Parser(cfg)) == Drained([], [Outcome(|line| + 20, None, None, LastBlockWritten)])
    ensures var line := NumberLine(BlockComplete, n);
            Drain(line, Parser(cfg)) == Drained([], [Outcome(|line|, None, None, Silent)])
    ensures Drain(Ready, Parser(cfg)) == Drained(Ready, [Wait])
  {
    var line := NumberLine(BlockComplete, n);
    assert line + Ready + [] == line + Ready;
    LastBlockLine(n, [], cfg);
    LineAlone(n, cfg);
    PromptAlone(cfg);
  }

  /** A "Complete block" line with no prompt after it is consumed as progress. */
  lemma LineAlone(n: nat, cfg: Config)
    requires Unpreempted(NumberLine(BlockComplete, n) + Ready, BlockComplete)
    ensures Step(NumberLine(BlockComplete, n), cfg)
            == Outcome(|NumberLine(BlockComplete, n)|, None, None, Silent)
  {
    var line := NumberLine(BlockComplete, n);
    assert line + [] == line;
    forall q | Rank(q) < Rank(BlockComplete)
      ensures !Occurs(line, Marker(q))
    {
      if Occurs(line, Marker(q)) {
        var i :| 0 <= i <= |line| && MatchAt(line, Marker(q), i);
        MatchPrefix(line, Marker(q), i, Ready);
      }
    }
    PromptFree(BlockComplete);
    LinePromptFree(Marker(BlockComplete), n);
    HeadAbsent(line, Ready);
    BlockCompleteLine(n, [], cfg);
  }

  /** The prompt alone makes the step wait. */
  lemma PromptAlone(cfg: Config)
    ensures Step(Ready, cfg) == Wait
  {
    forall q
      ensures !Occurs(Ready, Marker(q))
    {
      ReadyHasNoMarker(q);
    }
    NoMarkerWaits(Ready, cfg);
  }

  /** The prompt contains none of the device's markers. Every byte of the prompt is
      below 'C' or at least 'W', and every marker but "Write block " starts with a
      letter between them; "Write block " differs from the prompt in its second letter. */
  lemma ReadyHasNoMarker(q: Phase)
    ensures !Occurs(Ready, Marker(q))
  {
    if q == WriteBlock {
      ReadyNotWriteBlock();
    } else {
      ReadyBytes();
      var m := Marker(q);
      assert 67 <= m[0] < 87;
      HeadAbsent(Ready, m);
    }
  }

  /** The prompt's bytes lie outside 'C'..'V', and only its first is a 'W'. */
  lemma ReadyBytes()
    ensures forall k | 0 <= k < |Ready| :: Ready[k] < 67 || 87 <= Ready[k]
    ensures forall k | 1 <= k < |Ready| :: Ready[k] != 87
  {
  }

  lemma ReadyNotWriteBlock()
    ensures !Occurs(Ready, Marker(WriteBlock))
  {
    var m := Marker(WriteBlock);
    ReadyBytes();
    forall i | 0 <= i <= |Ready|
      ensures !MatchAt(Ready, m, i)
    {
      if i + |m| <= |Ready| {
        assert Ready[i..i + |m|][0] == Ready[i];
        if i == 0 {
          assert Ready[..|m|][1] == 97;
        }
      }
    }
  }
}
