/** Platform detection (`getBannerType`, smartbanner.js:160-180): a pure rule
    over the user-agent string and the two configured minimum versions that
    answers "ios", "android" or `undefined`. */
module Detect {

  import opened Wrappers
  import opened JsValues
  import opened Text

  const IOS: string := "ios"
  const ANDROID: string := "android"

  /** iOS 6 and later show a native smart banner of their own. */
  const NATIVE_SUPPORT_IOS: real := 6.0

  /** `/iPad|iPhone|iPod/i` matches the user agent. */
  predicate IsAppleDevice(ua: string) {
    ContainsIgnoreCase(ua, "iPad") || ContainsIgnoreCase(ua, "iPhone") || ContainsIgnoreCase(ua, "iPod")
  }

  /** The three characters after the first case-sensitive "OS ", with the
      first `_` turned into `.`. When "OS " is absent `indexOf` answers -1,
      so the window starts at position 2. */
  function IosVersionText(ua: string): (r: string)
    ensures |r| <= 3
    ensures var i := IndexOf(ua, "OS ");
      i >= 0 ==> r == ReplaceFirst(ua[i + 3..if i + 6 <= |ua| then i + 6 else |ua|], '_', '.')
    ensures IndexOf(ua, "OS ") == -1 ==> r == ReplaceFirst(Substr(ua, 2, 3), '_', '.')
  {
    var w := Substr(ua, IndexOf(ua, "OS ") + 3, 3);
    ReplaceFirst(w, '_', '.')
  }

  /** The version the iOS branch compares: `+IosVersionText(ua)`, NaN when
      the text is not a number. */
  function IosVersion(ua: string): Number {
    StringToNumber(IosVersionText(ua))
  }

  /** A first "OS " followed by `d1_d2` gives the version `d1.d2`. */
  lemma IosVersionOfDigits(ua: string, i: nat, d1: char, d2: char)
    requires OccursAt(ua, "OS ", i) && forall j :: 0 <= j < i ==> !OccursAt(ua, "OS ", j)
    requires i + 6 <= |ua| && ua[i + 3] == d1 && ua[i + 4] == '_' && ua[i + 5] == d2
    requires IsDigit(d1) && IsDigit(d2)
    ensures IosVersion(ua) == Fin((d1 as int - '0' as int) as real + (d2 as int - '0' as int) as real / 10.0)
  {
    VersionTextOfDigits(ua, i, d1, d2);
    DigitPairValue(d1, d2);
  }

  lemma VersionTextOfDigits(ua: string, i: nat, d1: char, d2: char)
    requires OccursAt(ua, "OS ", i) && forall j :: 0 <= j < i ==> !OccursAt(ua, "OS ", j)
    requires i + 6 <= |ua| && ua[i + 3] == d1 && ua[i + 4] == '_' && ua[i + 5] == d2 && d1 != '_'
    ensures IosVersionText(ua) == [d1, '.', d2]
  {
    FirstOccurrence(ua, "OS ", i);
    assert ua[i + 3..i + 6] == [d1, '_', d2];
    UnderscoreToDot(d1, d2);
  }

  /** The leftmost occurrence is the one `indexOf` reports. */
  lemma FirstOccurrence(s: string, pat: string, i: nat)
    requires OccursAt(s, pat, i) && forall j :: 0 <= j < i ==> !OccursAt(s, pat, j)
    ensures IndexOf(s, pat) == i
  {
  }

  lemma UnderscoreToDot(d1: char, d2: char)
    requires d1 != '_'
    ensures ReplaceFirst([d1, '_', d2], '_', '.') == [d1, '.', d2]
  {
    var w := [d1, '_', d2];
    assert FirstOf(w, '_', 1) == 1;
    assert FirstOf(w, '_') == 1;
  }

  /** `+"d1.d2"` is the one-decimal number d1.d2. */
  lemma DigitPairValue(d1: char, d2: char)
    requires IsDigit(d1) && IsDigit(d2)
    ensures StringToNumber([d1, '.', d2]) == Fin((d1 as int - '0' as int) as real + (d2 as int - '0' as int) as real / 10.0)
  {
    DigitPairDecimal(d1, d2);
    DigitPairString(d1, d2);
  }

  lemma DigitPairString(d1: char, d2: char)
    requires IsDigit(d1) && IsDigit(d2)
    ensures AllDigits([d1]) && AllDigits([d2])
    ensures StringToNumber([d1, '.', d2]) == Fin(DecimalValue([d1], [d2]))
  {
    var ip: string, fp: string := [d1], [d2];
    OneDigitValue(d1);
    OneDigitValue(d2);
    assert ip + "." + fp == [d1, '.', d2];
    DecimalStringToNumber(ip, fp);
  }

  lemma DigitPairDecimal(d1: char, d2: char)
    requires IsDigit(d1) && IsDigit(d2)
    ensures AllDigits([d1]) && AllDigits([d2])
    ensures DecimalValue([d1], [d2]) == (d1 as int - '0' as int) as real + (d2 as int - '0' as int) as real / 10.0
  {
    OneDigitValue(d1);
    OneDigitValue(d2);
    assert Pow10(1) == 10;
  }

  lemma OneDigitValue(d: char)
    requires IsDigit(d)
    ensures AllDigits([d]) && AllDigitsIn([d], 10) && ValueIn([d], 10) == d as int - '0' as int
  {
    assert [d][..0] == [];
  }

  /** The iPhone user agent of iOS 5.1 reports version 5.1. */
  lemma IosVersionExample()
    ensures IosVersion("iPhone OS 5_1 like Mac OS X") == Fin(5.1)
  {
    var ua := "iPhone OS 5_1 like Mac OS X";
    FirstOsAt(ua);
    IosVersionOfDigits(ua, 7, '5', '1');
  }

  lemma FirstOsAt(ua: string)
    requires ua == "iPhone OS 5_1 like Mac OS X"
    ensures OccursAt(ua, "OS ", 7) && forall j :: 0 <= j < 7 ==> !OccursAt(ua, "OS ", j)
    ensures ua[10] == '5' && ua[11] == '_' && ua[12] == '1'
  {
    assert ua[7..10] == "OS ";
    forall j | 0 <= j < 7
      ensures !OccursAt(ua, "OS ", j)
    {
      assert ua[j] != 'O';
    }
  }

  /** `/Android (\d+(?:\.\d+))/i` matches at position `p`: "android " in any
      ASCII case, one or more digits, a dot, one or more digits. */
  predicate AndroidAt(ua: string, p: nat)
    requires p <= |ua|
  {
    && OccursAtIgnoreCase(ua, "Android ", p)
    && var n1 := DigitRun(ua, p + 8);
    && n1 > 0 && p + 8 + n1 < |ua| && ua[p + 8 + n1] == '.'
    && DigitRun(ua, p + 9 + n1) > 0
  }

  /** `p` is the leftmost match position at or after `from`. */
  predicate FirstAndroidAt(ua: string, from: nat, p: nat) {
    from <= p <= |ua| && AndroidAt(ua, p) && forall q :: from <= q < p ==> !AndroidAt(ua, q)
  }

  /** The captured group of the leftmost match at or after `from`: greedy
      digits, the dot, greedy digits. */
  function AndroidVersionFrom(ua: string, from: nat): (r: Option<string>)
    requires from <= |ua| + 1
    ensures r.None? <==> forall p :: from <= p <= |ua| ==> !AndroidAt(ua, p)
    ensures r.Some? ==> exists p :: FirstAndroidAt(ua, from, p) && AndroidCapture(ua, p) == r.value
    decreases |ua| + 1 - from
  {
    if from > |ua| then None
    else if AndroidAt(ua, from) then
      assert FirstAndroidAt(ua, from, from);
      Some(AndroidCapture(ua, from))
    else
      var r := AndroidVersionFrom(ua, from + 1);
      assert r.Some? ==> exists p :: FirstAndroidAt(ua, from, p) && AndroidCapture(ua, p) == r.value by {
        if r.Some? {
          var p: nat :| FirstAndroidAt(ua, from + 1, p) && AndroidCapture(ua, p) == r.value;
          FirstAndroidStep(ua, from, p);
        }
      }
      r
  }

  /** A leftmost match after a non-matching position is leftmost from it. */
  lemma FirstAndroidStep(ua: string, from: nat, p: nat)
    requires from <= |ua| && !AndroidAt(ua, from) && FirstAndroidAt(ua, from + 1, p)
    ensures FirstAndroidAt(ua, from, p)
  {
    forall q | from <= q < p
      ensures !AndroidAt(ua, q)
    {
      if q > from {
        assert from + 1 <= q < p;
      }
    }
  }

  /** The text of the capture group of a match at `p`. */
  function AndroidCapture(ua: string, p: nat): (r: string)
    requires p <= |ua| && AndroidAt(ua, p)
    ensures exists ip, fp :: |ip| > 0 && |fp| > 0 && AllDigits(ip) && AllDigits(fp) && r == ip + "." + fp
  {
    var n1 := DigitRun(ua, p + 8);
    var n2 := DigitRun(ua, p + 9 + n1);
    var ip := ua[p + 8..p + 8 + n1];
    var fp := ua[p + 9 + n1..p + 9 + n1 + n2];
    assert ua[p + 8..p + 9 + n1 + n2] == ip + "." + fp;
    ua[p + 8..p + 9 + n1 + n2]
  }

  /** The condition of the iOS branch, over the three tests on the user
      agent and the configured minimum. */
  predicate IosAccepts(safari: bool, crios: bool, version: Number, minimum: Number) {
    safari && (crios || (Below(version, Fin(NATIVE_SUPPORT_IOS)) && AtLeast(version, minimum)))
  }

  /** `getBannerType`: "ios", "android" or `undefined`. */
  function BannerType(ua: string, verIOS: JsValue, verAndroid: JsValue): (r: JsValue)
    ensures r == Str(IOS) || r == Str(ANDROID) || r == Undefined
  {
    if IsAppleDevice(ua) then
      if IosAccepts(ContainsIgnoreCase(ua, "Safari"), ContainsIgnoreCase(ua, "CriOS"), IosVersion(ua), ToNumber(verIOS))
      then Str(IOS)
      else Undefined
    else
      match AndroidVersionFrom(ua, 0)
      case None => Undefined
      case Some(v) => if AtLeast(StringToNumber(v), ToNumber(verAndroid)) then Str(ANDROID) else Undefined
  }

  // -----------------------------------------------------------------------
  // Properties of the iOS branch

  /** An Apple device is never classified as Android, whatever else the
      user agent says. */
  lemma AppleNeverAndroid(ua: string, verIOS: JsValue, verAndroid: JsValue)
    requires IsAppleDevice(ua)
    ensures BannerType(ua, verIOS, verAndroid) != Str(ANDROID)
  {
  }

  /** `version` lies in the window the iOS branch accepts outside the
      webview: a finite value below the native-banner threshold that is at
      least the configured minimum (a NaN minimum admits nothing). */
  predicate InLegacyWindow(version: Number, minimum: Number) {
    match (version, minimum)
    case (Fin(v), Fin(m)) => m <= v < NATIVE_SUPPORT_IOS
    case (Fin(v), NegInf) => v < NATIVE_SUPPORT_IOS
    case (NegInf, NegInf) => true
    case _ => false
  }

  lemma LegacyWindowIsComparisons(version: Number, minimum: Number)
    ensures Below(version, Fin(NATIVE_SUPPORT_IOS)) && AtLeast(version, minimum) <==> InLegacyWindow(version, minimum)
  {
  }

  /** The asymmetric iOS rule: Safari and either the CriOS webview, or a
      version in the legacy window. */
  lemma AppleRule(ua: string, verIOS: JsValue, verAndroid: JsValue)
    requires IsAppleDevice(ua)
    ensures BannerType(ua, verIOS, verAndroid) == Str(IOS) <==>
      ContainsIgnoreCase(ua, "Safari") &&
      (ContainsIgnoreCase(ua, "CriOS") || InLegacyWindow(IosVersion(ua), ToNumber(verIOS)))
  {
    LegacyWindowIsComparisons(IosVersion(ua), ToNumber(verIOS));
  }

  /** An unset (`null`) minimum compares like 0: with a finite version below
      6, non-negative versions pass. */
  lemma NullMinimumIsZero(ua: string, verAndroid: JsValue)
    requires IsAppleDevice(ua) && ContainsIgnoreCase(ua, "Safari")
    requires IosVersion(ua).Fin? && 0.0 <= IosVersion(ua).r < 6.0
    ensures BannerType(ua, Null, verAndroid) == Str(IOS)
  {
  }

  /** Outside the CriOS webview, iOS 6 and later never get the banner, and
      neither does a version that does not parse. */
  lemma NativeBannerVersionsExcluded(ua: string, verIOS: JsValue, verAndroid: JsValue)
    requires IsAppleDevice(ua) && !ContainsIgnoreCase(ua, "CriOS")
    requires IosVersion(ua) == NaN || AtLeast(IosVersion(ua), Fin(6.0))
    ensures BannerType(ua, verIOS, verAndroid) == Undefined
  {
  }

  /** The CriOS webview passes regardless of its version and the minimum. */
  lemma CriOSAlwaysPasses(ua: string, verIOS: JsValue, verAndroid: JsValue)
    requires IsAppleDevice(ua) && ContainsIgnoreCase(ua, "Safari") && ContainsIgnoreCase(ua, "CriOS")
    ensures BannerType(ua, verIOS, verAndroid) == Str(IOS)
  {
  }

  // -----------------------------------------------------------------------
  // Properties of the Android branch

  /** Android is answered only for a non-Apple user agent that holds an
      "Android d+.d+" match. */
  lemma AndroidNeedsMatch(ua: string, verIOS: JsValue, verAndroid: JsValue)
    requires BannerType(ua, verIOS, verAndroid) == Str(ANDROID)
    ensures !IsAppleDevice(ua) && exists p :: 0 <= p <= |ua| && AndroidAt(ua, p)
  {
  }

  /** With the leftmost match capturing `ip.fp`, the answer is Android
      exactly when that decimal version reaches the minimum (a null minimum
      counts as 0, an unparsable one admits nothing). */
  lemma AndroidVersionRule(ua: string, p: nat, ip: string, fp: string, verIOS: JsValue, verAndroid: JsValue)
    requires !IsAppleDevice(ua)
    requires p <= |ua| && AndroidAt(ua, p) && forall q :: 0 <= q < p ==> !AndroidAt(ua, q)
    requires |ip| > 0 && |fp| > 0 && AllDigits(ip) && AllDigits(fp) && AndroidCapture(ua, p) == ip + "." + fp
    ensures BannerType(ua, verIOS, verAndroid) == Str(ANDROID) <==>
      match ToNumber(verAndroid)
      case Fin(m) => m <= DecimalValue(ip, fp)
      case NegInf => true
      case _ => false
  {
    LeftmostAndroid(ua, p);
    DecimalStringToNumber(ip, fp);
    AndroidAnswer(ua, ip + "." + fp, verIOS, verAndroid);
  }

  /** Once the scan captured `v`, the answer is Android exactly when `+v`
      reaches the minimum. */
  lemma AndroidAnswer(ua: string, v: string, verIOS: JsValue, verAndroid: JsValue)
    requires !IsAppleDevice(ua) && AndroidVersionFrom(ua, 0) == Some(v)
    ensures BannerType(ua, verIOS, verAndroid) == Str(ANDROID) <==> AtLeast(StringToNumber(v), ToNumber(verAndroid))
  {
  }

  /** The scan finds the leftmost match. */
  lemma LeftmostAndroid(ua: string, p: nat)
    requires p <= |ua| && AndroidAt(ua, p) && forall q :: 0 <= q < p ==> !AndroidAt(ua, q)
    ensures AndroidVersionFrom(ua, 0) == Some(AndroidCapture(ua, p))
  {
    var r := AndroidVersionFrom(ua, 0);
    var p': nat :| FirstAndroidAt(ua, 0, p') && AndroidCapture(ua, p') == r.value;
    assert p' == p;
  }

  /** A user agent with no "Android d+.d+" match and no Apple device name is
      unsupported, whatever the minimums. */
  lemma NoMatchIsUnsupported(ua: string, verIOS: JsValue, verAndroid: JsValue)
    requires !IsAppleDevice(ua)
    requires forall p :: 0 <= p <= |ua| ==> !AndroidAt(ua, p)
    ensures BannerType(ua, verIOS, verAndroid) == Undefined
  {
  }

  /** The minor part of the version is mandatory: "Android 4" alone gives
      no banner. */
  lemma MajorOnlyIsUnsupported(verIOS: JsValue, verAndroid: JsValue)
    ensures BannerType("Android 4", verIOS, verAndroid) == Undefined
  {
    NoAppleInAndroid4();
    NoMatchInAndroid4();
  }

  lemma NoAppleInAndroid4()
    ensures !IsAppleDevice("Android 4")
  {
    var ua := "Android 4";
    assert ua == ['A', 'n', 'd', 'r', 'o', 'i', 'd', ' ', '4'];
    AbsentSecondLetter(ua, "iPad");
    AbsentSecondLetter(ua, "iPhone");
    AbsentSecondLetter(ua, "iPod");
  }

  lemma NoMatchInAndroid4()
    ensures forall p :: 0 <= p <= |"Android 4"| ==> !AndroidAt("Android 4", p)
  {
    var ua := "Android 4";
    forall p | 0 <= p <= |ua|
      ensures !AndroidAt(ua, p)
    {
      if p == 0 {
        assert ua[8] == '4';
        assert DigitRun(ua, 9) == 0;
        assert DigitRun(ua, 8) == 1;
      } else if p == 1 {
        assert LowerAscii(ua[1 + 0]) != LowerAscii("Android "[0]);
      }
    }
  }
}
