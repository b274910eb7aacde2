/** Choosing the automation strategy from the Android version
    (InstallApkDemo/InstallApkDemo/Strategies/StrategyFactory.cs). The two
    `getprop` outputs are inputs. */
module StrategyFactory {
  import Common
  import opened Text

  datatype Strategy = ModernAutomationStrategy | LegacyAutomationStrategy

  /** The first major version served by the accessibility-helper strategy. */
  const ModernFromMajor: nat := 11

  /** The major version: the part of the trimmed version string before the
      first '.', read as a number; 0 when it is not one. */
  function MajorVersion(versionOutput: string): (v: nat)
    ensures var head := BeforeFirst(Trim(versionOutput), '.');
            && (|head| > 0 && IsDigits(head) ==> v == DigitsValue(head))
            && (|head| == 0 || !IsDigits(head) ==> v == 0)
  {
    match ParseNat(BeforeFirst(Trim(versionOutput), '.'))
    case Some(n) => n
    case None => 0
  }

  /** `StrategyFactory.GetStrategy`: Android 11 and later get the modern
      strategy, everything else (an unreadable version included) the legacy
      one. The brand is read and printed but takes no part in the choice. */
  function GetStrategy(versionOutput: string, brandOutput: string): (s: Strategy)
    ensures s == ModernAutomationStrategy <==> MajorVersion(versionOutput) >= ModernFromMajor
    ensures s == LegacyAutomationStrategy <==> MajorVersion(versionOutput) < ModernFromMajor
  {
    if MajorVersion(versionOutput) >= ModernFromMajor then ModernAutomationStrategy
    else LegacyAutomationStrategy
  }

  /** The brand never changes the strategy. */
  lemma BrandIrrelevant(versionOutput: string, brand1: string, brand2: string)
    ensures GetStrategy(versionOutput, brand1) == GetStrategy(versionOutput, brand2)
  {
  }

  /** The text before the first separator of `a`, the separator, and anything. */
  lemma {:induction false} BeforeFirstOfJoin(a: string, sep: char, b: string)
    requires sep !in a
    ensures BeforeFirst(a + [sep] + b, sep) == a
    decreases |a|
  {
    if |a| > 0 {
      assert (a + [sep] + b)[1..] == a[1..] + [sep] + b;
      BeforeFirstOfJoin(a[1..], sep, b);
    }
  }

  /** Any version printed as a major number, a dot and further text (not
      ending in whitespace) has that number as its major version; the
      strategy follows the threshold. For example "4.4.4" reads as 4. */
  lemma {:induction false} PrintedVersionRoundTrip(major: nat, rest: string, brand: string)
    requires |rest| == 0 || !IsWhiteSpace(rest[|rest| - 1])
    ensures MajorVersion(ShowNat(major) + "." + rest) == major
    ensures GetStrategy(ShowNat(major) + "." + rest, brand) ==
              if major >= ModernFromMajor then ModernAutomationStrategy else LegacyAutomationStrategy
  {
    var d := ShowNat(major);
    var v := d + "." + rest;
    assert v[0] == d[0] && IsDigit(d[0]);
    assert v[|v| - 1] == (if |rest| == 0 then '.' else rest[|rest| - 1]);
    TrimUnchanged(v);
    assert '.' !in d;
    BeforeFirstOfJoin(d, '.', rest);
    ParseShowNat(major);
  }

  /** A version without a dot is read whole. */
  lemma {:induction false} PlainVersionRoundTrip(major: nat)
    ensures MajorVersion(ShowNat(major)) == major
  {
    var d := ShowNat(major);
    assert IsDigit(d[0]) && IsDigit(d[|d| - 1]);
    TrimUnchanged(d);
    assert '.' !in d;
    BeforeFirstNone(d, '.');
    ParseShowNat(major);
  }

  /** Without the separator, everything comes before it. */
  lemma {:induction false} BeforeFirstNone(a: string, sep: char)
    requires sep !in a
    ensures BeforeFirst(a, sep) == a
    decreases |a|
  {
    if |a| > 0 {
      BeforeFirstNone(a[1..], sep);
    }
  }

  /** Version output whose trimmed part before the first dot is empty or not
      all digits (blank output, a codename) counts as 0 and gets the legacy
      strategy. */
  lemma UnreadableIsLegacy(versionOutput: string, brand: string)
    requires var head := BeforeFirst(Trim(versionOutput), '.'); |head| == 0 || !IsDigits(head)
    ensures MajorVersion(versionOutput) == 0
    ensures GetStrategy(versionOutput, brand) == LegacyAutomationStrategy
  {
  }
}
