/**
 * Project version strings of frontend/src/components/ArchitectureCanvas.tsx.
 * A session starts at "1.0"; loading a project and every successful save set
 * the version to `(parseFloat(v) || 1.0) + 1.0` rendered with one decimal.
 *
 * Versions are kept exactly, in tenths: "2.7" is 27. The parser accepts the
 * shapes the program itself writes, `D+` and `D+.D`; any other string counts
 * as unparsable, as `parseFloat` does for strings that do not start a number.
 */
module Version {
  import opened Wrappers
  import opened StrUtil

  const InitialVersion: string := "1.0"

  /** The value in tenths of a version string of the form `D+` or `D+.D`. */
  function ParseTenths(s: string): (r: Option<nat>)
    ensures r.Some? ==> |s| > 0 && IsDigit(s[0]) && IsDigit(s[|s| - 1])
    ensures |s| > 0 && AllDigits(s) ==> r.Some?
  {
    if |s| > 0 && AllDigits(s) then Some(10 * DigitsValue(s))
    else if |s| >= 3 && s[|s| - 2] == '.' && AllDigits(s[..|s| - 2]) && IsDigit(s[|s| - 1]) then
      Some(10 * DigitsValue(s[..|s| - 2]) + (s[|s| - 1] as int - '0' as int))
    else None
  }

  /** `toFixed(1)` of a value held in tenths. */
  function RenderTenths(t: nat): (s: string)
    ensures |s| >= 3 && s[|s| - 2] == '.'
  {
    NatToString(t / 10) + "." + [DigitChar(t % 10)]
  }

  /** Rendering and parsing are inverse: a rendered version reads back as
      the same value. */
  lemma ParseRender(t: nat)
    ensures ParseTenths(RenderTenths(t)) == Some(t)
  {
    var s := RenderTenths(t);
    assert s[..|s| - 2] == NatToString(t / 10);
    assert s[|s| - 1] == DigitChar(t % 10);
    assert !IsDigit(s[|s| - 2]);
    DigitsValueOfNatToString(t / 10);
  }

  /** `parseFloat(v) || 1.0`, in tenths: unparsable and zero fall back to 1.0. */
  function BaseTenths(v: string): (t: nat)
    ensures t > 0
    ensures ParseTenths(v).Some? && ParseTenths(v).value != 0 ==> t == ParseTenths(v).value
    ensures ParseTenths(v).None? || ParseTenths(v).value == 0 ==> t == 10
  {
    match ParseTenths(v)
    case Some(t) => if t != 0 then t else 10
    case None => 10
  }

  /** The version that follows `v`: one more than its value, one decimal. */
  function NextVersion(v: string): (r: string)
    ensures |r| >= 3 && r[|r| - 2] == '.'
  {
    RenderTenths(BaseTenths(v) + 10)
  }

  /** The next version reads back as exactly one more than the current one
      (or than 1.0 when the current one is unparsable or zero). */
  lemma NextVersionValue(v: string)
    ensures ParseTenths(NextVersion(v)) == Some(BaseTenths(v) + 10)
    ensures BaseTenths(NextVersion(v)) == BaseTenths(v) + 10
  {
    ParseRender(BaseTenths(v) + 10);
  }

  /** A save never writes the same version twice in a row. */
  lemma NextVersionDiffers(v: string)
    ensures NextVersion(v) != v
  {
    NextVersionValue(v);
  }

  /** The version after `n` saves from `v`. */
  function VersionAfter(v: string, n: nat): string {
    if n == 0 then v else NextVersion(VersionAfter(v, n - 1))
  }

  /** Saves advance the version by one each: after `n >= 1` saves the value
      is the starting one plus `n`. */
  lemma VersionAfterValue(v: string, n: nat)
    requires n >= 1
    ensures ParseTenths(VersionAfter(v, n)) == Some(BaseTenths(v) + 10 * n)
    ensures BaseTenths(VersionAfter(v, n)) == BaseTenths(v) + 10 * n
  {
    VersionAfterBase(v, n - 1);
    NextVersionValue(VersionAfter(v, n - 1));
  }

  /** The fallback value after `n` saves, by induction on `n`. */
  lemma {:induction false} VersionAfterBase(v: string, n: nat)
    ensures BaseTenths(VersionAfter(v, n)) == BaseTenths(v) + 10 * n
  {
    if n > 0 {
      VersionAfterBase(v, n - 1);
      VersionAfterStep(VersionAfter(v, n - 1), VersionAfter(v, n), BaseTenths(v), n);
    }
  }

  /** The inductive step of `VersionAfterBase`: one more save adds 1.0. */
  lemma VersionAfterStep(prev: string, next: string, base: nat, n: nat)
    requires n > 0 && next == NextVersion(prev) && BaseTenths(prev) == base + 10 * (n - 1)
    ensures BaseTenths(next) == base + 10 * n
  {
    NextVersionValue(prev);
  }

  /** A session saved three times writes "1.0", "2.0" and "3.0" and then
      stands at "4.0". */
  lemma FreshSessionVersions()
    ensures NextVersion(InitialVersion) == "2.0"
    ensures NextVersion("2.0") == "3.0"
    ensures NextVersion("3.0") == "4.0"
  {
    assert RenderTenths(10) == "1.0";
    assert RenderTenths(20) == "2.0";
    assert RenderTenths(30) == "3.0";
    assert RenderTenths(40) == "4.0";
    ParseRender(10);
    ParseRender(20);
    ParseRender(30);
  }

  /** A loaded "2.7" continues at "3.7": the fraction is kept. */
  lemma LoadedFractionKept()
    ensures NextVersion("2.7") == "3.7"
  {
    assert RenderTenths(27) == "2.7";
    assert RenderTenths(37) == "3.7";
    ParseRender(27);
  }

  /** An unparsable or zero version continues at "2.0". */
  lemma UnparsableRestartsAtTwo(v: string)
    requires ParseTenths(v).None? || ParseTenths(v) == Some(0)
    ensures NextVersion(v) == "2.0"
  {
  }
}
