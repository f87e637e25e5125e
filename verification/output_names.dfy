/** The DataSink renaming table: the per-run merged time series, which the
    workflow engine stores under `_merge_epis<r>/`, is renamed to a
    run-numbered file in the output directory. */
module OutputNames {
  import opened Results
  import opened Decimal

  const SourcePrefix := "_merge_epis"
  const SourceSuffix := "/timeseries_corrected.nii.gz"
  const TargetPrefix := "timeseries_corrected_run"
  const TargetSuffix := ".nii.gz"

  /** Where the engine leaves the merged series of run `r` (0-based):
      `'_merge_epis%d/timeseries_corrected.nii.gz' % r`. Between the fixed
      prefix and suffix stands exactly `'%d' % r`: digits without a leading
      zero whose value is `r`, so the run number also reads back out. */
  function SourceName(r: nat): (name: string)
    ensures |name| > |SourcePrefix| + |SourceSuffix|
    ensures name[..|SourcePrefix|] == SourcePrefix
    ensures name[|name| - |SourceSuffix|..] == SourceSuffix
    ensures var t := name[|SourcePrefix|..|name| - |SourceSuffix|];
      AllDigits(t) && DigitsValue(t) == r && (|t| > 1 ==> t[0] != '0')
    ensures NumberBetween(name, SourcePrefix, SourceSuffix) == Some(r)
  {
    var digits := NatToDecimal(r);
    var name := SourcePrefix + digits + SourceSuffix;
    assert name[..|SourcePrefix|] == SourcePrefix;
    assert name[|name| - |SourceSuffix|..] == SourceSuffix;
    assert name[|SourcePrefix|..|name| - |SourceSuffix|] == digits;
    NumberBetweenFramed(SourcePrefix, digits, SourceSuffix);
    assert digits == IntToDecimal(r);
    ParseFormatted(r);
    name
  }

  /** The output name of run `r`: `'timeseries_corrected_run%02d.nii.gz' % (r+1)`.
      Between the fixed prefix and suffix stands exactly `'%02d' % (r+1)`: at
      least two digits, a leading zero only as padding to two, and the value
      `r + 1`; below a hundred runs, exactly two digits. The 1-based run
      number reads back out of the name. */
  function TargetName(r: nat): (name: string)
    ensures |name| >= |TargetPrefix| + 2 + |TargetSuffix|
    ensures r + 1 < 100 ==> |name| == |TargetPrefix| + 2 + |TargetSuffix|
    ensures name[..|TargetPrefix|] == TargetPrefix
    ensures name[|name| - |TargetSuffix|..] == TargetSuffix
    ensures var t := name[|TargetPrefix|..|name| - |TargetSuffix|];
      AllDigits(t) && DigitsValue(t) == r + 1 && (|t| > 2 ==> t[0] != '0')
    ensures NumberBetween(name, TargetPrefix, TargetSuffix) == Some(r + 1)
  {
    var padded := ZeroPad(r + 1, 2);
    var name := TargetPrefix + padded + TargetSuffix;
    assert name[..|TargetPrefix|] == TargetPrefix;
    assert name[|name| - |TargetSuffix|..] == TargetSuffix;
    assert name[|TargetPrefix|..|name| - |TargetSuffix|] == padded;
    TargetPadding(r);
    assert |padded| > 2 ==> padded == NatToDecimal(r + 1);
    NumberBetweenFramed(TargetPrefix, padded, TargetSuffix);
    ParseZeroPadded(r + 1, 2);
    name
  }

  /** One rename pair per functional run, in run order. */
  function Substitutions(epis: seq<string>): (subs: seq<(string, string)>)
    ensures |subs| == |epis|
  {
    seq(|epis|, r requires 0 <= r < |epis| => (SourceName(r), TargetName(r)))
  }

  /** The text between a known prefix and suffix, parsed as an integer:
      reads the run number back out of a file name. */
  function NumberBetween(name: string, prefix: string, suffix: string): (r: Option<int>)
  {
    if |name| >= |prefix| + |suffix| && name[..|prefix|] == prefix
       && name[|name| - |suffix|..] == suffix
    then ParseInt(name[|prefix|..|name| - |suffix|])
    else None
  }

  /** Reading the number back out of `prefix + t + suffix` parses `t`. */
  lemma NumberBetweenFramed(prefix: string, t: string, suffix: string)
    ensures NumberBetween(prefix + t + suffix, prefix, suffix) == ParseInt(t)
  {
    var name := prefix + t + suffix;
    assert name[..|prefix|] == prefix;
    assert name[|name| - |suffix|..] == suffix;
    assert name[|prefix|..|name| - |suffix|] == t;
  }

  /** Pair `r` renames the engine's output of run `r` to the file numbered
      `r + 1`: both numbers read back out of the two names. */
  lemma SubstitutionRunNumbers(epis: seq<string>, r: nat)
    requires r < |epis|
    ensures NumberBetween(Substitutions(epis)[r].0, SourcePrefix, SourceSuffix) == Some(r)
    ensures NumberBetween(Substitutions(epis)[r].1, TargetPrefix, TargetSuffix) == Some(r + 1)
  {
    assert Substitutions(epis)[r] == (SourceName(r), TargetName(r));
  }

  /** The run number of every target has at least two digits, and exactly
      two while there are fewer than a hundred runs. */
  lemma TargetPadding(r: nat)
    ensures |ZeroPad(r + 1, 2)| >= 2
    ensures r + 1 < 100 ==> |ZeroPad(r + 1, 2)| == 2
  {
    if r + 1 < 100 {
      var d := NatToDecimal(r + 1);
      if |d| > 2 {
        DigitsBound(d);
      }
    }
  }

  /** A digit string of length at least three without a leading zero denotes
      at least 100. */
  lemma {:induction false} DigitsBound(s: string)
    requires AllDigits(s) && |s| >= 3 && s[0] != '0'
    ensures DigitsValue(s) >= 100
  {
    var init := s[..|s| - 1];
    if |s| == 3 {
      assert init[..1] == [s[0]];
      assert DigitsValue(init[..1]) >= 1 by {
        assert [s[0]][..0] == [];
      }
    } else {
      assert init[0] == s[0];
      DigitsBound(init);
    }
  }

  /** Run numbers in the target names are 1-based and strictly increasing
      with the run position, so no two runs are renamed to the same file;
      the same holds of the source names. */
  lemma SubstitutionsDistinct(epis: seq<string>, r1: nat, r2: nat)
    requires r1 < r2 < |epis|
    ensures Substitutions(epis)[r1].1 != Substitutions(epis)[r2].1
    ensures Substitutions(epis)[r1].0 != Substitutions(epis)[r2].0
  {
    SubstitutionRunNumbers(epis, r1);
    SubstitutionRunNumbers(epis, r2);
  }

  /** Four functional runs are renamed to `timeseries_corrected_run01.nii.gz`
      through `timeseries_corrected_run04.nii.gz`, in order. */
  lemma FourRuns(epis: seq<string>)
    requires |epis| == 4
    ensures Substitutions(epis)[0].1 == TargetPrefix + "01" + TargetSuffix
    ensures Substitutions(epis)[1].1 == TargetPrefix + "02" + TargetSuffix
    ensures Substitutions(epis)[2].1 == TargetPrefix + "03" + TargetSuffix
    ensures Substitutions(epis)[3].1 == TargetPrefix + "04" + TargetSuffix
  {
    SingleDigitTarget(epis, 0);
    SingleDigitTarget(epis, 1);
    SingleDigitTarget(epis, 2);
    SingleDigitTarget(epis, 3);
  }

  /** Runs 1 to 9 get a leading zero. */
  lemma SingleDigitTarget(epis: seq<string>, r: nat)
    requires r < |epis| && r + 1 < 10
    ensures Substitutions(epis)[r].1 == TargetPrefix + ['0', DigitChar(r + 1)] + TargetSuffix
  {
    assert NatToDecimal(r + 1) == [DigitChar(r + 1)];
    assert Zeros(1) == "0";
    assert ZeroPad(r + 1, 2) == ['0', DigitChar(r + 1)];
    assert Substitutions(epis)[r].1 == TargetName(r);
  }
}
