/** The overall risk score of an audit: three points per critical finding, two per high and
    one per medium, capped at ten. */
module Risk {
  import opened Security

  /** The number of findings of severity `s`. */
  function CountSeverity(fs: seq<SecurityFinding>, s: Severity): (r: nat)
    ensures r <= |fs|
  {
    if fs == [] then 0
    else CountSeverity(fs[..|fs| - 1], s) + (if fs[|fs| - 1].severity == s then 1 else 0)
  }

  const MAX_RISK_SCORE := 10

  /** The score of the audit pipeline, computed from the three severity counts. */
  function RiskScore(fs: seq<SecurityFinding>): (r: nat)
    ensures r <= MAX_RISK_SCORE
  {
    var total := 3 * CountSeverity(fs, Critical) + 2 * CountSeverity(fs, High) + CountSeverity(fs, Medium);
    if total < MAX_RISK_SCORE then total else MAX_RISK_SCORE
  }

  /** The points one finding contributes before the cap. */
  function Weight(s: Severity): nat {
    match s
    case Critical => 3
    case High => 2
    case Medium => 1
    case Low => 0
    case Informational => 0
  }

  /** The sum of the weights of the findings, one finding at a time. */
  function WeightSum(fs: seq<SecurityFinding>): nat {
    if fs == [] then 0 else WeightSum(fs[..|fs| - 1]) + Weight(fs[|fs| - 1].severity)
  }

  /** The three per-severity counts add up to the per-finding weights. */
  lemma {:induction false} CountsAreWeights(fs: seq<SecurityFinding>)
    ensures 3 * CountSeverity(fs, Critical) + 2 * CountSeverity(fs, High) + CountSeverity(fs, Medium) == WeightSum(fs)
  {
    if fs != [] {
      CountsAreWeights(fs[..|fs| - 1]);
    }
  }

  /** The score is the capped sum of the weights of the findings. */
  lemma RiskScoreIsCappedWeightSum(fs: seq<SecurityFinding>)
    ensures RiskScore(fs) == if WeightSum(fs) < MAX_RISK_SCORE then WeightSum(fs) else MAX_RISK_SCORE
  {
    CountsAreWeights(fs);
  }

  /** Adding a finding never lowers the score. */
  lemma RiskScoreMonotone(fs: seq<SecurityFinding>, f: SecurityFinding)
    ensures RiskScore(fs) <= RiskScore(fs + [f])
  {
    assert (fs + [f])[..|fs + [f]| - 1] == fs;
    RiskScoreIsCappedWeightSum(fs);
    RiskScoreIsCappedWeightSum(fs + [f]);
  }

  /** A low or informational finding leaves the score unchanged. */
  lemma MinorFindingsDoNotCount(fs: seq<SecurityFinding>, f: SecurityFinding)
    requires f.severity == Low || f.severity == Informational
    ensures RiskScore(fs + [f]) == RiskScore(fs)
  {
    assert (fs + [f])[..|fs + [f]| - 1] == fs;
    RiskScoreIsCappedWeightSum(fs);
    RiskScoreIsCappedWeightSum(fs + [f]);
  }

  /** The score is zero exactly when there is no critical, high or medium finding. */
  lemma {:induction false} RiskScoreZero(fs: seq<SecurityFinding>)
    ensures RiskScore(fs) == 0 <==>
      forall i :: 0 <= i < |fs| ==> fs[i].severity != Critical && fs[i].severity != High && fs[i].severity != Medium
  {
    RiskScoreIsCappedWeightSum(fs);
    WeightSumZero(fs);
  }

  lemma {:induction false} WeightSumZero(fs: seq<SecurityFinding>)
    ensures WeightSum(fs) == 0 <==> forall i :: 0 <= i < |fs| ==> Weight(fs[i].severity) == 0
  {
    if fs != [] {
      var init := fs[..|fs| - 1];
      WeightSumZero(init);
      assert forall i :: 0 <= i < |init| ==> init[i] == fs[i];
    }
  }

  /** Four critical findings reach the cap whatever else is found. */
  lemma FourCriticalsReachCap(fs: seq<SecurityFinding>)
    requires CountSeverity(fs, Critical) >= 4
    ensures RiskScore(fs) == MAX_RISK_SCORE
  {
  }
}
