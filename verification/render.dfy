/** The banner's markup (`render`, smartbanner.js:275-295): which option
    values go where in the template, and the price line, whose price part is
    dropped when the price is falsy. The template's fixed HTML text is not
    modelled; the content records the values interpolated into it. */
module Render {

  import opened JsValues
  import opened Options
  import Detect

  /** The separator between the price and the store label. */
  const PRICE_SEPARATOR: string := " &mdash; "

  /** The values the template interpolates: `sb_<type>` class suffix, the
      link, the button text, the icon URL, the title, the author and the
      pieces of the price line. */
  datatype Content = Content(
    bannerType: JsValue,
    url: JsValue,
    button: JsValue,
    icon: JsValue,
    title: JsValue,
    author: JsValue,
    priceLine: seq<JsValue>)

  /** `inStore`: the Google Play label for Android, the App Store label for
      every other type. */
  function StoreLabel(o: Object, bannerType: JsValue): (r: JsValue)
    ensures bannerType == Str(Detect.ANDROID) ==> r == Get(o, "inGooglePlay")
    ensures bannerType != Str(Detect.ANDROID) ==> r == Get(o, "inAppStore")
  {
    if bannerType == Str(Detect.ANDROID) then Get(o, "inGooglePlay") else Get(o, "inAppStore")
  }

  /** `(price ? price + ' &mdash; ' : '') + inStore`, as the sequence of its
      concatenated pieces. */
  function PriceLine(price: JsValue, inStore: JsValue): (r: seq<JsValue>)
    ensures |r| > 0 && r[|r| - 1] == inStore
    ensures Truthy(price) <==> |r| == 3
    ensures !Truthy(price) <==> |r| == 1
    ensures |r| == 3 ==> r[0] == price && r[1] == Str(PRICE_SEPARATOR)
  {
    (if Truthy(price) then [price, Str(PRICE_SEPARATOR)] else []) + [inStore]
  }

  /** `render(type)` over the completed options. */
  function RenderBanner(o: Object, bannerType: JsValue): (c: Content)
    ensures c.bannerType == Get(o, "type")
    ensures c.url == Get(o, "url") && c.button == Get(o, "button") && c.icon == Get(o, "icon")
    ensures c.title == Get(o, "title") && c.author == Get(o, "author")
    ensures c.priceLine == PriceLine(Get(o, "price"), StoreLabel(o, bannerType))
  {
    Content(Get(o, "type"), Get(o, "url"), Get(o, "button"), Get(o, "icon"), Get(o, "title"),
            Get(o, "author"), PriceLine(Get(o, "price"), StoreLabel(o, bannerType)))
  }

  /** With the default texts, the price line reads "FREE &mdash; On the App
      Store" on iOS and "FREE &mdash; In Google Play" on Android. */
  lemma DefaultPriceLines()
    ensures PriceLine(Get(Merge(Falsy), "price"), StoreLabel(Merge(Falsy), Str(Detect.IOS)))
            == [Str("FREE"), Str(PRICE_SEPARATOR), Str("On the App Store")]
    ensures PriceLine(Get(Merge(Falsy), "price"), StoreLabel(Merge(Falsy), Str(Detect.ANDROID)))
            == [Str("FREE"), Str(PRICE_SEPARATOR), Str("In Google Play")]
  {
    NoOptionsIsDefaults();
    IosPriceLine();
  }

  /** Any type other than Android takes the App Store label. */
  lemma IosPriceLine()
    ensures StoreLabel(Merge(Falsy), Str(Detect.IOS)) == Get(Merge(Falsy), "inAppStore")
  {
    assert Str(Detect.IOS) != Str(Detect.ANDROID) by {
      assert Detect.IOS[0] != Detect.ANDROID[0];
    }
  }

  /** A price of `""`, `0` or `null` hides the price part, leaving only the
      store label. */
  lemma FalsyPriceHidden(o: Object, bannerType: JsValue)
    requires Get(o, "price") in {Str(""), Num(Fin(0.0)), Null}
    ensures RenderBanner(o, bannerType).priceLine == [StoreLabel(o, bannerType)]
  {
  }
}
