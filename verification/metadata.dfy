/** The metadata resolvers (smartbanner.js:202-267): the application id from
    a platform meta tag, the page title without its site suffix, the author,
    the icon and the store link. The page is an abstract record holding the
    first element of each kind the code looks up. */
module Metadata {

  import opened Wrappers
  import opened JsValues
  import opened Text
  import Detect

  /** The first element matching one of the selectors the code queries; `attr`
      is the attribute it reads (`content` for a meta tag, `href` for a link),
      `None` when the element lacks it and `getAttribute` answers null. */
  datatype Element = Element(attr: Option<string>)

  /** What the code reads from the page. */
  datatype Document = Document(
    title: string,                      // document.title
    itunesMeta: Option<Element>,        // meta[name="apple-itunes-app"]
    playMeta: Option<Element>,          // meta[name="google-play-app"]
    authorMeta: Option<Element>,        // meta[name="author"]
    precomposedIcon: Option<Element>,   // link[rel="apple-touch-icon-precomposed"]
    touchIcon: Option<Element>)         // link[rel="apple-touch-icon"]

  /** The page's `location`. */
  datatype Location = Location(host: string, origin: string)

  const APPLE_TOUCH_DEFAULT: string := "apple-touch-icon.png"
  const ID_PREFIX: string := "app-id="
  const MARKET_PREFIX: string := "market://details?id="
  const ITUNES_PREFIX: string := "https://itunes.apple.com/app/id"

  /** An attribute read: its text, or null. */
  function AttrValue(a: Option<string>): JsValue {
    match a
    case Some(s) => Str(s)
    case None => Null
  }

  // -----------------------------------------------------------------------
  // getAppId

  /** Outcome of `getAppId`: an id, `undefined`, or the TypeError raised by
      calling `match` on the null content of a meta tag without one. */
  datatype AppIdLookup = Found(id: string) | NotFound | ContentMissing

  /** A character of the id: `[^\s,]`. */
  predicate IsIdChar(c: char) {
    !IsJsSpace(c) && c != ','
  }

  /** `/app-id=([^\s,]+)/` matches at position `p`. */
  predicate AppIdAt(c: string, p: nat) {
    OccursAt(c, ID_PREFIX, p) && p + |ID_PREFIX| < |c| && IsIdChar(c[p + |ID_PREFIX|])
  }

  /** Length of the run of id characters of `c` from `i`. */
  function IdRun(c: string, i: nat): (n: nat)
    requires i <= |c|
    ensures i + n <= |c|
    ensures forall k :: i <= k < i + n ==> IsIdChar(c[k])
    ensures i + n < |c| ==> !IsIdChar(c[i + n])
    decreases |c| - i
  {
    if i < |c| && IsIdChar(c[i]) then 1 + IdRun(c, i + 1) else 0
  }

  /** The captured id of a match at `p`. */
  function AppIdCapture(c: string, p: nat): (r: string)
    requires p + |ID_PREFIX| <= |c|
  {
    c[p + |ID_PREFIX|..p + |ID_PREFIX| + IdRun(c, p + |ID_PREFIX|)]
  }

  /** `p` is the leftmost match position at or after `from`. */
  predicate FirstAppIdAt(c: string, from: nat, p: nat) {
    from <= p <= |c| && AppIdAt(c, p) && forall q :: from <= q < p ==> !AppIdAt(c, q)
  }

  /** The capture of the leftmost match at or after `from`. */
  function AppIdFrom(c: string, from: nat): (r: Option<string>)
    requires from <= |c| + 1
    ensures r.None? <==> forall p :: from <= p <= |c| ==> !AppIdAt(c, p)
    ensures r.Some? ==> exists p :: FirstAppIdAt(c, from, p) && r.value == AppIdCapture(c, p)
    decreases |c| + 1 - from
  {
    if from > |c| then None
    else if AppIdAt(c, from) then
      assert FirstAppIdAt(c, from, from);
      Some(AppIdCapture(c, from))
    else
      var r := AppIdFrom(c, from + 1);
      assert r.Some? ==> exists p :: FirstAppIdAt(c, from, p) && r.value == AppIdCapture(c, p) by {
        if r.Some? {
          var p: nat :| FirstAppIdAt(c, from + 1, p) && r.value == AppIdCapture(c, p);
          assert FirstAppIdAt(c, from, p);
        }
      }
      r
  }

  /** The application id in a meta tag's content: the longest run of id
      characters right after the leftmost "app-id=" that is followed by one. */
  function AppIdIn(content: string): (r: Option<string>)
    ensures r.Some? ==> |r.value| > 0 && forall k :: 0 <= k < |r.value| ==> IsIdChar(r.value[k])
    ensures r.None? <==> forall p :: 0 <= p <= |content| ==> !AppIdAt(content, p)
  {
    var r := AppIdFrom(content, 0);
    assert r.Some? ==> |r.value| > 0 && forall k :: 0 <= k < |r.value| ==> IsIdChar(r.value[k]) by {
      if r.Some? {
        var p: nat :| FirstAppIdAt(content, 0, p) && r.value == AppIdCapture(content, p);
        assert IdRun(content, p + |ID_PREFIX|) > 0;
      }
    }
    r
  }

  /** `getAppId(type)`: Android reads google-play-app, every other type
      (including a configured non-platform value) reads apple-itunes-app. */
  function GetAppId(bannerType: JsValue, doc: Document): (r: AppIdLookup)
    ensures var meta := if bannerType == Str(Detect.ANDROID) then doc.playMeta else doc.itunesMeta;
      && (meta.None? ==> r == NotFound)
      && (meta.Some? && meta.value.attr.None? ==> r == ContentMissing)
      && (meta.Some? && meta.value.attr.Some? ==>
            !r.ContentMissing?
            && (r.NotFound? <==> AppIdIn(meta.value.attr.value).None?)
            && (r.Found? ==> r.id == AppIdIn(meta.value.attr.value).value))
  {
    var meta := if bannerType == Str(Detect.ANDROID) then doc.playMeta else doc.itunesMeta;
    match meta
    case None => NotFound
    case Some(Element(None)) => ContentMissing
    case Some(Element(Some(content))) =>
      match AppIdIn(content)
      case None => NotFound
      case Some(id) => Found(id)
  }

  /** When the first "app-id=" is followed by an id character, the id is the
      longest run of id characters after it. */
  lemma AppIdAfterFirstPrefix(content: string)
    requires IndexOf(content, ID_PREFIX) >= 0
    requires AppIdAt(content, IndexOf(content, ID_PREFIX))
    ensures var i := IndexOf(content, ID_PREFIX) + |ID_PREFIX|;
      AppIdIn(content).Some? && AppIdIn(content).value == content[i..i + IdRun(content, i)]
  {
    var p := IndexOf(content, ID_PREFIX);
    AppIdLeftmost(content, p);
  }

  /** The leftmost match is not always after the first "app-id=": the
      expression retries at later positions when an id does not follow. */
  lemma AppIdSkipsEmptyPrefix()
    ensures AppIdIn("app-id= app-id=7") == Some("7")
  {
    var c := "app-id= app-id=7";
    SecondPrefixMatches(c);
    EmptyIdSkipped(c);
    AppIdLeftmost(c, 8);
  }

  lemma SecondPrefixMatches(c: string)
    requires c == "app-id= app-id=7"
    ensures AppIdAt(c, 8) && AppIdCapture(c, 8) == "7"
  {
    assert c[8..15] == ID_PREFIX;
    DigitIsIdChar(c[15]);
    IdRunIs(c, 15, 16);
    assert AppIdCapture(c, 8) == c[15..16] == "7";
  }

  lemma EmptyIdSkipped(c: string)
    requires c == "app-id= app-id=7"
    ensures forall q :: 0 <= q < 8 ==> !AppIdAt(c, q)
  {
    assert !IsIdChar(c[7]);
    forall q | 1 <= q < 8
      ensures !OccursAt(c, ID_PREFIX, q)
    {
      assert c[q] != 'a';
    }
  }

  /** The scan finds the leftmost match. */
  lemma AppIdLeftmost(c: string, p: nat)
    requires p <= |c| && AppIdAt(c, p) && forall q :: 0 <= q < p ==> !AppIdAt(c, q)
    ensures AppIdIn(c).Some? && AppIdIn(c).value == AppIdCapture(c, p)
  {
    var r := AppIdIn(c);
    var p': nat :| FirstAppIdAt(c, 0, p') && r.value == AppIdCapture(c, p');
    assert p' == p;
  }

  /** The documented example: `app-id=544007664` gives "544007664". */
  lemma AppIdExample()
    ensures AppIdIn("app-id=544007664") == Some("544007664")
  {
    var c := "app-id=544007664";
    FirstPrefixMatches(c);
    AppIdLeftmost(c, 0);
  }

  lemma FirstPrefixMatches(c: string)
    requires c == "app-id=544007664"
    ensures AppIdAt(c, 0) && AppIdCapture(c, 0) == "544007664"
  {
    assert OccursAt(c, ID_PREFIX, 0);
    forall k | 7 <= k < 16
      ensures IsIdChar(c[k])
    {
      DigitIsIdChar(c[k]);
    }
    IdRunIs(c, 7, 16);
    assert AppIdCapture(c, 0) == c[7..16] == "544007664";
  }

  lemma DigitIsIdChar(c: char)
    requires '0' <= c <= '9'
    ensures IsIdChar(c)
  {
  }

  /** `IdRun` stops at the first non-id character. */
  lemma {:induction false} IdRunIs(c: string, i: nat, j: nat)
    requires i <= j <= |c| && (j < |c| ==> !IsIdChar(c[j])) && forall k :: i <= k < j ==> IsIdChar(c[k])
    ensures IdRun(c, i) == j - i
    decreases j - i
  {
    if i < j {
      IdRunIs(c, i + 1, j);
    }
  }

  // -----------------------------------------------------------------------
  // getTitle

  /** The title separators `|`, `-` and `·`. */
  predicate IsSeparator(c: char) {
    c == '|' || c == '-' || c == '\U{B7}'
  }

  /** `/\s*[|\-·].*$/` matches from position `i` to the end of the title:
      white space, a separator, then no line terminator up to the end. */
  predicate SuffixAt(t: string, i: nat) {
    exists j :: i <= j < |t| && (forall k :: i <= k < j ==> IsJsSpace(t[k])) && IsSeparator(t[j])
                && (forall k :: j < k < |t| ==> !IsLineTerminator(t[k]))
  }

  /** First position at or after `i` that is not white space. */
  function SpaceEnd(t: string, i: nat): (j: nat)
    requires i <= |t|
    ensures i <= j <= |t|
    ensures forall k :: i <= k < j ==> IsJsSpace(t[k])
    ensures j < |t| ==> !IsJsSpace(t[j])
    decreases |t| - i
  {
    if i < |t| && IsJsSpace(t[i]) then SpaceEnd(t, i + 1) else i
  }

  predicate NoLineTerminatorFrom(t: string, i: nat) {
    forall k :: i <= k < |t| ==> !IsLineTerminator(t[k])
  }

  /** White space from `i` up to a separator on the last line is a match. */
  lemma SuffixAtWitness(t: string, i: nat, j: nat)
    requires i <= j < |t| && (forall k :: i <= k < j ==> IsJsSpace(t[k])) && IsSeparator(t[j])
    requires NoLineTerminatorFrom(t, j + 1)
    ensures SuffixAt(t, i)
  {
    assert forall k :: j < k < |t| ==> !IsLineTerminator(t[k]);
  }

  /** A match starts with white space up to its separator. */
  lemma SuffixAtSeparator(t: string, i: nat)
    requires i <= |t| && SuffixAt(t, i)
    ensures var j := SpaceEnd(t, i); j < |t| && IsSeparator(t[j]) && NoLineTerminatorFrom(t, j + 1)
  {
    var j' :| i <= j' < |t| && (forall k :: i <= k < j' ==> IsJsSpace(t[k])) && IsSeparator(t[j'])
              && (forall k :: j' < k < |t| ==> !IsLineTerminator(t[k]));
    SeparatorIsNotSpace(t[j']);
    SpaceEndIs(t, i, j');
  }

  /** No match where the white space from `i` is not followed by a
      separator on the last line. */
  lemma NoSuffixAt(t: string, i: nat)
    requires i <= |t|
    requires var j := SpaceEnd(t, i); !(j < |t| && IsSeparator(t[j]) && NoLineTerminatorFrom(t, j + 1))
    ensures !SuffixAt(t, i)
  {
    if SuffixAt(t, i) {
      SuffixAtSeparator(t, i);
    }
  }

  lemma SeparatorIsNotSpace(c: char)
    requires IsSeparator(c)
    ensures !IsJsSpace(c)
  {
  }

  /** `SpaceEnd` is the first non-space position. */
  lemma {:induction false} SpaceEndIs(t: string, i: nat, j: nat)
    requires i <= j < |t| && !IsJsSpace(t[j]) && forall k :: i <= k < j ==> IsJsSpace(t[k])
    ensures SpaceEnd(t, i) == j
    decreases j - i
  {
    if i < j {
      SpaceEndIs(t, i + 1, j);
    }
  }

  /** The leftmost start of a match at or after `from`. */
  function SuffixFrom(t: string, from: nat): (r: Option<nat>)
    requires from <= |t|
    ensures r.None? ==> forall i :: from <= i <= |t| ==> !SuffixAt(t, i)
    ensures r.Some? ==> from <= r.value < |t| && SuffixAt(t, r.value) && forall i :: from <= i < r.value ==> !SuffixAt(t, i)
    decreases |t| - from
  {
    var j := SpaceEnd(t, from);
    if j < |t| && IsSeparator(t[j]) && NoLineTerminatorFrom(t, j + 1) then
      SuffixAtWitness(t, from, j);
      Some(from)
    else
      NoSuffixAt(t, from);
      if from == |t| then None
      else SuffixFrom(t, from + 1)
  }

  /** `getTitle`: the title with the leftmost suffix match removed. */
  function GetTitle(t: string): (r: string)
    ensures |r| <= |t| && r == t[..|r|]
    ensures r == t <==> forall i :: 0 <= i <= |t| ==> !SuffixAt(t, i)
    ensures |r| < |t| ==> SuffixAt(t, |r|) && forall i :: 0 <= i < |r| ==> !SuffixAt(t, i)
  {
    match SuffixFrom(t, 0)
    case None => t
    case Some(i) => t[..i]
  }

  predicate NoLineTerminator(t: string) {
    forall k :: 0 <= k < |t| ==> !IsLineTerminator(t[k])
  }

  predicate NoSeparator(t: string) {
    forall k :: 0 <= k < |t| ==> !IsSeparator(t[k])
  }

  /** On a one-line title: the text before the first separator, without the
      white space immediately before it; a title without a separator is left
      unchanged, and the result never holds a separator. */
  lemma {:induction false} TitleBeforeFirstSeparator(t: string, j: nat)
    requires NoLineTerminator(t)
    requires j < |t| && IsSeparator(t[j]) && NoSeparator(t[..j])
    ensures var r := GetTitle(t);
      && r == t[..|r|] && NoSeparator(r)
      && (|r| == 0 || !IsJsSpace(r[|r| - 1]))
      && (forall k :: |r| <= k < j ==> IsJsSpace(t[k]))
  {
    var r := GetTitle(t);
    var w := SpaceStart(t, j);
    SuffixAtSpaceStart(t, j, w);
    NoSuffixBefore(t, j, w);
    assert |r| == w;
    assert forall k :: 0 <= k < |r| ==> r[k] == t[..j][k];
  }

  /** The white space before a separator on the last line starts a match. */
  lemma SuffixAtSpaceStart(t: string, j: nat, w: nat)
    requires NoLineTerminator(t) && j < |t| && IsSeparator(t[j])
    requires w <= j && forall k :: w <= k < j ==> IsJsSpace(t[k])
    ensures SuffixAt(t, w)
  {
    assert forall k :: j < k < |t| ==> !IsLineTerminator(t[k]);
  }

  /** Before the white space preceding the first separator, nothing matches. */
  lemma NoSuffixBefore(t: string, j: nat, w: nat)
    requires j < |t| && NoSeparator(t[..j])
    requires w <= j && (w > 0 ==> !IsJsSpace(t[w - 1]))
    ensures forall i :: 0 <= i < w ==> !SuffixAt(t, i)
  {
    forall i | 0 <= i < w
      ensures !SuffixAt(t, i)
    {
      SpaceEndBound(t, i, w - 1);
      var e := SpaceEnd(t, i);
      assert t[..j][e] == t[e];
      NoSuffixAt(t, i);
    }
  }

  /** White space stops at the latest at a non-space position. */
  lemma {:induction false} SpaceEndBound(t: string, i: nat, m: nat)
    requires i <= m < |t| && !IsJsSpace(t[m])
    ensures SpaceEnd(t, i) <= m
    decreases m - i
  {
    if i < m && IsJsSpace(t[i]) {
      SpaceEndBound(t, i + 1, m);
    }
  }

  /** Start of the white-space run ending just before `j`. */
  function SpaceStart(t: string, j: nat): (w: nat)
    requires j <= |t|
    ensures w <= j
    ensures forall k :: w <= k < j ==> IsJsSpace(t[k])
    ensures w > 0 ==> !IsJsSpace(t[w - 1])
  {
    if j > 0 && IsJsSpace(t[j - 1]) then SpaceStart(t, j - 1) else j
  }

  /** A one-line title without a separator is unchanged. */
  lemma NoSeparatorUnchanged(t: string)
    requires NoSeparator(t)
    ensures GetTitle(t) == t
  {
    forall i | 0 <= i <= |t|
      ensures !SuffixAt(t, i)
    {
      NoSuffixAt(t, i);
    }
  }

  /** Stripping a one-line title twice is stripping it once. */
  lemma TitleIdempotent(t: string)
    requires NoLineTerminator(t)
    ensures GetTitle(GetTitle(t)) == GetTitle(t)
  {
    var r := GetTitle(t);
    if r != t {
      var j := FirstSeparator(t, 0);
      TitleBeforeFirstSeparator(t, j);
      NoSeparatorUnchanged(r);
    }
  }

  /** The first separator of a title that has a suffix match. */
  function FirstSeparator(t: string, from: nat): (j: nat)
    requires from <= |t|
    requires exists k :: from <= k < |t| && IsSeparator(t[k])
    ensures from <= j < |t| && IsSeparator(t[j]) && forall k :: from <= k < j ==> !IsSeparator(t[k])
    decreases |t| - from
  {
    if IsSeparator(t[from]) then from else FirstSeparator(t, from + 1)
  }

  /** The documented examples. */
  lemma TitleDashExample()
    ensures GetTitle("My App - Home") == "My App"
  {
    var t := "My App - Home";
    assert t[..6] == "My App" && t[8..] == " Home";
    TitleExample(t);
  }

  lemma TitlePipeExample()
    ensures GetTitle("My App | Home") == "My App"
  {
    var t := "My App | Home";
    assert t[..6] == "My App" && t[8..] == " Home";
    TitleExample(t);
  }

  lemma TitleExample(t: string)
    requires |t| == 13 && t[..6] == "My App" && t[6] == ' ' && IsSeparator(t[7]) && t[8..] == " Home"
    ensures GetTitle(t) == "My App"
  {
    assert NoLineTerminator(t) by {
      assert forall k :: 0 <= k < 6 ==> t[k] == "My App"[k];
      assert forall k :: 8 <= k < 13 ==> t[k] == " Home"[k - 8];
    }
    assert NoSeparator(t[..7]) by {
      assert forall k :: 0 <= k < 6 ==> t[k] == "My App"[k];
    }
    TitleBeforeFirstSeparator(t, 7);
    var r := GetTitle(t);
    assert t[5] == 'p';
    assert |r| == 6;
  }

  // -----------------------------------------------------------------------
  // getAuthor, getIcon, getLink

  /** `getAuthor`: the author meta tag's content (null without one), else the
      host name. */
  function GetAuthor(doc: Document, loc: Location): (r: JsValue)
    ensures doc.authorMeta.None? ==> r == Str(loc.host)
    ensures doc.authorMeta.Some? ==> r == AttrValue(doc.authorMeta.value.attr)
  {
    match doc.authorMeta
    case Some(e) => AttrValue(e.attr)
    case None => Str(loc.host)
  }

  /** `getIcon`: the precomposed touch icon's href, else the plain touch
      icon's, else the default icon at the page's origin. */
  function GetIcon(doc: Document, loc: Location): (r: JsValue)
    ensures doc.precomposedIcon.Some? ==> r == AttrValue(doc.precomposedIcon.value.attr)
    ensures doc.precomposedIcon.None? && doc.touchIcon.Some? ==> r == AttrValue(doc.touchIcon.value.attr)
    ensures doc.precomposedIcon.None? && doc.touchIcon.None? ==> r == Str(loc.origin + "/" + APPLE_TOUCH_DEFAULT)
  {
    var link := if doc.precomposedIcon.Some? then doc.precomposedIcon else doc.touchIcon;
    match link
    case Some(e) => AttrValue(e.attr)
    case None => Str(loc.origin + "/" + APPLE_TOUCH_DEFAULT)
  }

  /** The first element a chain of `$(a) || $(b) || ...` lookups finds. */
  function FirstFound(links: seq<Option<Element>>): (r: Option<Element>)
    ensures r.None? <==> forall i :: 0 <= i < |links| ==> links[i].None?
    ensures r.Some? ==> exists i :: 0 <= i < |links| && links[i] == r && forall j :: 0 <= j < i ==> links[j].None?
  {
    if |links| == 0 then None
    else if links[0].Some? then links[0]
    else
      var r := FirstFound(links[1..]);
      assert forall i :: 1 <= i < |links| ==> links[i] == links[1..][i - 1];
      r
  }

  /** `getIcon` reads the href of the first touch-icon link found, most
      specific first, and falls back to the default only when none is. */
  lemma IconFromFirstFound(doc: Document, loc: Location)
    ensures var link := FirstFound([doc.precomposedIcon, doc.touchIcon]);
      GetIcon(doc, loc) == if link.Some? then AttrValue(link.value.attr) else Str(loc.origin + "/" + APPLE_TOUCH_DEFAULT)
  {
    var links := [doc.precomposedIcon, doc.touchIcon];
    assert links[1..] == [doc.touchIcon];
    assert FirstFound(links[1..][1..]) == None;
  }

  /** The page lookups never answer undefined: a found element whose
      attribute is missing gives null, which the `||` of `init` then keeps. */
  lemma PageLookupsDefined(doc: Document, loc: Location)
    ensures GetAuthor(doc, loc) != Undefined && GetIcon(doc, loc) != Undefined
    ensures GetAuthor(doc, loc) == Null <==> doc.authorMeta.Some? && doc.authorMeta.value.attr.None?
  {
  }

  /** `getLink`: the store URL for the id; the language argument is unused. */
  function GetLink(bannerType: JsValue, appId: string, lang: JsValue): (r: string)
    ensures |r| >= |appId| && r[|r| - |appId|..] == appId
  {
    var url := if bannerType == Str(Detect.ANDROID) then MARKET_PREFIX else ITUNES_PREFIX;
    assert (url + appId)[|url|..] == appId;
    url + appId
  }

  /** The language argument does not influence the link. */
  lemma LinkIgnoresLang(bannerType: JsValue, appId: string, lang: JsValue, lang': JsValue)
    ensures GetLink(bannerType, appId, lang) == GetLink(bannerType, appId, lang')
  {
  }

  /** Reading a store URL back: which store it points to and the id. */
  function ParseLink(link: string): Option<(bool, string)> {
    if |link| >= |MARKET_PREFIX| && link[..|MARKET_PREFIX|] == MARKET_PREFIX then Some((true, link[|MARKET_PREFIX|..]))
    else if |link| >= |ITUNES_PREFIX| && link[..|ITUNES_PREFIX|] == ITUNES_PREFIX then Some((false, link[|ITUNES_PREFIX|..]))
    else None
  }

  /** The store URL determines the store (Android or App Store) and the id. */
  lemma LinkRoundTrip(bannerType: JsValue, appId: string, lang: JsValue)
    ensures ParseLink(GetLink(bannerType, appId, lang)) == Some((bannerType == Str(Detect.ANDROID), appId))
  {
    var r := GetLink(bannerType, appId, lang);
    if bannerType == Str(Detect.ANDROID) {
      assert r[..|MARKET_PREFIX|] == MARKET_PREFIX;
    } else {
      assert r[..|ITUNES_PREFIX|] == ITUNES_PREFIX;
      assert r[..|MARKET_PREFIX|] != MARKET_PREFIX by { assert r[0] != MARKET_PREFIX[0]; }
    }
  }
}
