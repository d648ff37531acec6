/**
 * Format rules the glTF importer applies to an asset: the `asset.version`
 * string (section 3.2 of the Khronos glTF 2.0 specification: "<major>.<minor>",
 * both decimal) must have major version 2, and a KHR_lights_punctual spot
 * light's cone angle is its outer cone angle.
 */
module GLTFAsset {
  import opened Wrappers

  // ---------------------------------------------------------------------------
  // Decimal numbers
  // ---------------------------------------------------------------------------

  predicate IsDigit(c: char) {
    '0' <= c <= '9'
  }

  predicate AllDigits(s: string) {
    forall k :: 0 <= k < |s| ==> IsDigit(s[k])
  }

  function DigitChar(d: nat): (c: char)
    requires d < 10
    ensures IsDigit(c)
  {
    ('0' as int + d) as char
  }

  function DigitValue(c: char): (d: nat)
    requires IsDigit(c)
    ensures d < 10 && DigitChar(d) == c
  {
    c as int - '0' as int
  }

  /** The value of a non-empty string of decimal digits; None for anything else. */
  function ParseNat(s: string): (r: Option<nat>)
    ensures r.Some? <==> |s| > 0 && AllDigits(s)
  {
    if |s| == 0 || !IsDigit(s[|s| - 1]) then None
    else if |s| == 1 then Some(DigitValue(s[0]))
    else match ParseNat(s[..|s| - 1])
      case None => None
      case Some(high) => Some(high * 10 + DigitValue(s[|s| - 1]))
  }

  /** The shortest decimal spelling of n. */
  function NatToString(n: nat): (s: string)
    ensures |s| > 0 && AllDigits(s)
  {
    if n < 10 then [DigitChar(n)] else NatToString(n / 10) + [DigitChar(n % 10)]
  }

  lemma {:induction false} ParseNatToString(n: nat)
    ensures ParseNat(NatToString(n)) == Some(n)
  {
    if n >= 10 {
      var q, d := n / 10, n % 10;
      ParseNatToString(q);
      var high := NatToString(q);
      var s := high + [DigitChar(d)];
      assert NatToString(n) == s;
      assert s[..|s| - 1] == high;
      assert ParseNat(s) == Some(q * 10 + DigitValue(DigitChar(d)));
    }
  }

  // ---------------------------------------------------------------------------
  // The asset version
  // ---------------------------------------------------------------------------

  datatype Version = Version(major: nat, minor: nat)

  /** Index of the first occurrence of c in s. */
  function IndexOf(s: string, c: char): (r: Option<nat>)
    ensures r.Some? ==> r.value < |s| && s[r.value] == c && c !in s[..r.value]
    ensures r.None? ==> c !in s
  {
    if |s| == 0 then None
    else if s[0] == c then Some(0)
    else match IndexOf(s[1..], c)
      case None => None
      case Some(k) => Some(k + 1)
  }

  /** The "<major>.<minor>" spelling of a version. */
  function FormatVersion(v: Version): string {
    NatToString(v.major) + "." + NatToString(v.minor)
  }

  /** Reads "<major>.<minor>": two non-empty digit strings around the first '.'. */
  function ParseVersion(s: string): (r: Option<Version>)
    ensures r.Some? ==> '.' in s
  {
    match IndexOf(s, '.')
    case None => None
    case Some(k) =>
      match (ParseNat(s[..k]), ParseNat(s[k + 1..]))
      case (Some(major), Some(minor)) => Some(Version(major, minor))
      case _ => None
  }

  lemma ParseFormatVersion(v: Version)
    ensures ParseVersion(FormatVersion(v)) == Some(v)
  {
    var a, b := NatToString(v.major), NatToString(v.minor);
    var s := FormatVersion(v);
    assert '.' !in a by {
      assert forall k :: 0 <= k < |a| ==> IsDigit(a[k]);
    }
    assert s[..|a|] == a && s[|a|] == '.' && s[|a| + 1..] == b;
    assert IndexOf(s, '.') == Some(|a|);
    ParseNatToString(v.major);
    ParseNatToString(v.minor);
  }

  /** The importer accepts an asset iff its version reads as "<major>.<minor>" with major version 2. */
  predicate IsSupportedVersion(version: string) {
    match ParseVersion(version)
    case Some(v) => v.major == 2
    case None => false
  }

  /** Exactly the 2.x versions are supported. */
  lemma SupportedVersions(v: Version)
    ensures IsSupportedVersion(FormatVersion(v)) <==> v.major == 2
  {
    ParseFormatVersion(v);
  }

  /**
   * The shape "<major>.<minor>": a first '.' with a non-empty run of decimal
   * digits before it and a non-empty run of decimal digits (so no further '.')
   * after it.
   */
  predicate VersionShaped(s: string) {
    exists k :: 0 <= k < |s| && s[k] == '.' && '.' !in s[..k]
      && |s[..k]| > 0 && AllDigits(s[..k]) && |s[k + 1..]| > 0 && AllDigits(s[k + 1..])
  }

  /** The version parser accepts exactly the strings of the "<major>.<minor>" shape. */
  lemma ParseVersionShape(s: string)
    ensures ParseVersion(s).Some? <==> VersionShaped(s)
  {
    if VersionShaped(s) {
      // the witness is the first '.', which is where the parser splits
      var k :| 0 <= k < |s| && s[k] == '.' && '.' !in s[..k]
        && |s[..k]| > 0 && AllDigits(s[..k]) && |s[k + 1..]| > 0 && AllDigits(s[k + 1..]);
      assert IndexOf(s, '.') == Some(k);
    }
  }

  /** A version string that is not of the form "<major>.<minor>" is rejected. */
  lemma MalformedVersionRejected(version: string)
    requires !VersionShaped(version)
    ensures !IsSupportedVersion(version)
  {
    ParseVersionShape(version);
  }

  /** A third component is not part of the shape: "2.0.1" is rejected. */
  lemma ThreeComponentsRejected()
    ensures !VersionShaped("2.0.1") && !IsSupportedVersion("2.0.1")
  {
    var s := "2.0.1";
    assert IndexOf(s, '.') == Some(1);
    assert !AllDigits(s[2..]) by {
      assert s[2..][1] == '.';
    }
    ParseVersionShape(s);
  }

  /** Leading zeros are decimal digits like any other: "02.0" is version 2.0 and is accepted. */
  lemma LeadingZeroAccepted()
    ensures VersionShaped("02.0") && ParseVersion("02.0") == Some(Version(2, 0)) && IsSupportedVersion("02.0")
  {
    var s := "02.0";
    assert IndexOf(s, '.') == Some(2);
    assert s[..2] == "02" && s[3..] == "0";
    assert ParseNat("02") == Some(2) by {
      assert "02"[..1] == "0";
    }
    ParseVersionShape(s);
  }

  // ---------------------------------------------------------------------------
  // KHR_lights_punctual
  // ---------------------------------------------------------------------------

  /** A punctual light as the extension describes it; angles in radians. */
  datatype PunctualLight =
    | Directional(color: (real, real, real), intensity: real)
    | Point(color: (real, real, real), intensity: real, range: Option<real>)
    | Spot(color: (real, real, real), intensity: real, range: Option<real>,
           innerConeAngle: real, outerConeAngle: real)

  /** The cone angle given to the renderer's light: the outer cone angle of a spot light. */
  function ConeAngle(light: PunctualLight): (r: Option<real>)
    ensures r.Some? <==> light.Spot?
  {
    match light
    case Spot(_, _, _, _, outer) => Some(outer)
    case _ => None
  }

  /** The inner cone angle never affects the imported light. */
  lemma ConeAngleIgnoresInner(light: PunctualLight, inner: real)
    requires light.Spot?
    ensures ConeAngle(light.(innerConeAngle := inner)) == ConeAngle(light) == Some(light.outerConeAngle)
  {
  }
}
