/** The banner's lifecycle (smartbanner.js:36-41, 296-447): the module state
    (`options`, the cached `$smartBanner`/`$placeholder` handles and
    `bannerHeight`), the page body the banner is inserted into, the cookie jar
    and the pending timers, driven by the public API, by clicks on the banner
    and by timers firing. A step reports whether it threw a TypeError. */
module Lifecycle {

  import opened Wrappers
  import opened JsValues
  import opened Options
  import opened Detect
  import opened Metadata
  import opened Cookies
  import opened Render

  /** A child of `document.body`: the page's own content, the placeholder
      that pushes the page down, or the banner. `top` and `height` are the
      pixel values of the inline styles. */
  datatype Node = Page(id: nat) | Placeholder(height: int) | Banner(top: int, content: Content)

  /** What the host provides and the banner code only reads. */
  datatype Env = Env(ua: string, standalone: JsValue, doc: Document, loc: Location)

  /** A callback scheduled with `setTimeout`. */
  datatype Callback = ShowLater | DestroyLater

  /** The closure state and the parts of the browser it touches. `mounted`
      is `Some(bannerHeight)` while `$smartBanner` and `$placeholder` are set
      and `None` while they are null (or not yet assigned). `options` starts
      out empty; no step reads it before the first `smartBanner` call. `now`
      is the day on the cookie clock. */
  datatype State = State(
    options: Object,
    mounted: Option<int>,
    body: seq<Node>,
    jar: seq<Cookie>,
    now: int,
    pending: seq<Callback>,
    env: Env)

  /** What can happen: a `smartBanner(opts)` call (with the height the
      browser lays the rendered banner out at), the four API functions, a
      click on the close button or on the banner link (with the expiry day
      the browser computes for the cookie), a pending timer firing, and the
      clock advancing. */
  datatype Event =
    | Create(opts: Arg, offsetHeight: nat)
    | ApiShow
    | ApiHide
    | ApiRemove
    | ApiDestroy
    | ClickClose(expiry: int)
    | ClickInstall(expiry: int)
    | Fire(k: nat)
    | Advance(days: nat)

  /** The state after a step, and whether the step threw. */
  datatype Outcome = Outcome(state: State, threw: bool)

  /** The state before the first call: the page, no banner, no timers. */
  function Start(env: Env, page: seq<nat>, jar: seq<Cookie>, now: int): (s: State)
    ensures |s.body| == |page| && forall i :: 0 <= i < |page| ==> s.body[i] == Page(page[i])
    ensures s.mounted.None? && s.pending == []
  {
    State(map[], None, seq(|page|, i requires 0 <= i < |page| => Page(page[i])), jar, now, [], env)
  }

  // -----------------------------------------------------------------------
  // init

  /** `getCookie(name)` is truthy: the entry is present with a non-empty
      value. */
  predicate Dismissed(s: State, name: string) {
    var v := Read(s.jar, s.now, name);
    v.Some? && |v.value| > 0
  }

  /** `options.type || getBannerType()`. */
  function ResolveType(o: Object, env: Env): (t: JsValue)
    ensures Truthy(Get(o, "type")) ==> t == Get(o, "type")
    ensures !Truthy(Get(o, "type")) ==> t == BannerType(env.ua, Get(o, "verIOS"), Get(o, "verAndroid"))
  {
    Or(Get(o, "type"), BannerType(env.ua, Get(o, "verIOS"), Get(o, "verAndroid")))
  }

  /** The early return of `init`: no banner type, a standalone web app, or
      a dismissal cookie. */
  predicate Blocked(s: State, t: JsValue) {
    !Truthy(t) || Truthy(s.env.standalone) || Dismissed(s, CLOSED) || Dismissed(s, INSTALLED)
  }

  /** The option keys `init` writes. */
  const COMPLETED: set<string> := {"type", "appId", "title", "author", "icon", "url"}

  /** The options the template reads besides those `init` writes. */
  lemma TemplateKeysUntouched()
    ensures "button" !in COMPLETED && "price" !in COMPLETED
    ensures "inGooglePlay" !in COMPLETED && "inAppStore" !in COMPLETED
  {
    assert "button"[0] == 'b' && "price"[0] == 'p' && "inGooglePlay"[0] == 'i' && "inAppStore"[0] == 'i';
    assert |"inGooglePlay"| == 12 && |"inAppStore"| == 10 && |"icon"| == 4;
  }

  /** The options `init` writes once the id is known: the type, the id, and
      the title, author, icon and URL, each kept when configured and
      otherwise looked up on the page. */
  function Complete(o: Object, t: JsValue, id: string, env: Env): (r: Object)
    ensures r.Keys == o.Keys + COMPLETED
    ensures forall key :: key in o && key !in COMPLETED ==> r[key] == o[key]
    ensures r["type"] == t && r["appId"] == Str(id)
    ensures r["title"] == Or(Get(o, "title"), Str(GetTitle(env.doc.title)))
    ensures r["author"] == Or(Get(o, "author"), GetAuthor(env.doc, env.loc))
    ensures r["icon"] == Or(Get(o, "icon"), GetIcon(env.doc, env.loc))
    ensures r["url"] == Or(Get(o, "url"), Str(GetLink(t, id, Get(o, "appStoreLang"))))
  {
    var o1 := o["type" := t]["appId" := Str(id)];
    var o2 := o1["title" := Or(Get(o1, "title"), Str(GetTitle(env.doc.title)))];
    var o3 := o2["author" := Or(Get(o2, "author"), GetAuthor(env.doc, env.loc))];
    var o4 := o3["icon" := Or(Get(o3, "icon"), GetIcon(env.doc, env.loc))];
    o4["url" := Or(Get(o4, "url"), Str(GetLink(t, id, Get(o4, "appStoreLang"))))]
  }

  /** Completing twice is completing once: a value written by the first pass
      is either truthy, and kept, or the page's own value again. */
  lemma CompleteIdempotent(o: Object, t: JsValue, id: string, env: Env)
    ensures Complete(Complete(o, t, id, env), t, id, env) == Complete(o, t, id, env)
  {
    var r := Complete(o, t, id, env);
    var r2 := Complete(r, t, id, env);
    LangNotCompleted();
    OrAbsorbs(Get(o, "title"), Str(GetTitle(env.doc.title)));
    OrAbsorbs(Get(o, "author"), GetAuthor(env.doc, env.loc));
    OrAbsorbs(Get(o, "icon"), GetIcon(env.doc, env.loc));
    OrAbsorbs(Get(o, "url"), Str(GetLink(t, id, Get(o, "appStoreLang"))));
    SameOnCompleted(r, r2);
    SameOptions(r, r2);
  }

  lemma LangNotCompleted()
    ensures "appStoreLang" !in COMPLETED
  {
    assert |"appStoreLang"| == 12;
  }

  lemma SameOnCompleted(r: Object, r2: Object)
    requires COMPLETED <= r.Keys && COMPLETED <= r2.Keys
    requires r2["type"] == r["type"] && r2["appId"] == r["appId"] && r2["title"] == r["title"]
    requires r2["author"] == r["author"] && r2["icon"] == r["icon"] && r2["url"] == r["url"]
    ensures forall key :: key in COMPLETED ==> r2[key] == r[key]
  {
  }

  /** `(a || b) || b` is `a || b`. */
  lemma OrAbsorbs(a: JsValue, b: JsValue)
    ensures Or(Or(a, b), b) == Or(a, b)
  {
  }

  lemma SameOptions(r: Object, r2: Object)
    requires r2.Keys == r.Keys && forall key :: key in r ==> r2[key] == r[key]
    ensures r2 == r
  {
  }

  /** `init()` on a state whose options are already merged: the early
      return, then the id lookup. */
  function Init(s: State, offsetHeight: nat): (out: Outcome)
    requires s.mounted.None?
    ensures out.state.env == s.env && out.state.jar == s.jar && out.state.now == s.now
    ensures out.state.mounted.None? ==> out.state.body == s.body && out.state.pending == s.pending
    ensures out.threw ==> out.state.mounted.None?
  {
    var t := ResolveType(s.options, s.env);
    if Blocked(s, t) then Outcome(s, false) else Lookup(s, t, offsetHeight)
  }

  /** The rest of `init()` once the type is known and not blocked: the type
      is stored, then a missing id returns and a meta tag without `content`
      throws. */
  function Lookup(s: State, t: JsValue, offsetHeight: nat): (out: Outcome)
    requires s.mounted.None?
    ensures out.state.env == s.env && out.state.jar == s.jar && out.state.now == s.now
    ensures out.state.mounted.None? ==> out.state.body == s.body && out.state.pending == s.pending
    ensures out.threw ==> out.state.mounted.None?
  {
    match GetAppId(t, s.env.doc)
    case NotFound => Outcome(s.(options := s.options["type" := t]), false)
    case ContentMissing => Outcome(s.(options := s.options["type" := t]), true)
    case Found(id) => Outcome(Mount(s, t, id, offsetHeight), false)
  }

  /** The banner is inserted before the first child of the body and the
      placeholder before the banner; the banner starts above the viewport,
      `offsetHeight + 2` pixels up, and a show is scheduled. */
  function Mount(s: State, t: JsValue, id: string, offsetHeight: nat): (r: State)
    ensures r.env == s.env && r.jar == s.jar && r.now == s.now
    ensures r.mounted == Some(offsetHeight + 2)
    ensures r.options == Complete(s.options, t, id, s.env)
    ensures r.body == [Placeholder(0), Banner(-(offsetHeight + 2), RenderBanner(r.options, t))] + s.body
    ensures r.pending == s.pending + [ShowLater]
  {
    var o := Complete(s.options, t, id, s.env);
    var h := offsetHeight + 2;
    s.(options := o, mounted := Some(h), body := [Placeholder(0), Banner(-h, RenderBanner(o, t))] + s.body,
       pending := s.pending + [ShowLater])
  }

  // -----------------------------------------------------------------------
  // show, hide, remove, destroy

  /** The handles point at the body's first two children, placeholder then
      banner. */
  predicate Shaped(s: State) {
    |s.body| >= 2 && s.body[0].Placeholder? && s.body[1].Banner?
  }

  /** Sets the banner's `top` and the placeholder's `height`. */
  function Restyle(s: State, top: int, height: int): (r: State)
    requires Shaped(s)
    ensures Shaped(r) && r.body[1].top == top && r.body[0].height == height
    ensures r.body[1].content == s.body[1].content && r.body[2..] == s.body[2..]
    ensures r == s.(body := r.body)
  {
    s.(body := [Placeholder(height), Banner(top, s.body[1].content)] + s.body[2..])
  }

  /** `show()`: the banner slides to the top and the placeholder takes its
      height. Throws while the handles are null. */
  function ShowBanner(s: State): (out: Outcome)
    ensures out.threw <==> s.mounted.None?
    ensures out.threw ==> out.state == s
  {
    match s.mounted
    case None => Outcome(s, true)
    case Some(h) => if Shaped(s) then Outcome(Restyle(s, 0, h), false) else Outcome(s, false)
  }

  /** `hide()`: the banner moves back up by its height and the placeholder
      collapses. Throws while the handles are null. */
  function HideBanner(s: State): (out: Outcome)
    ensures out.threw <==> s.mounted.None?
    ensures out.threw ==> out.state == s
  {
    match s.mounted
    case None => Outcome(s, true)
    case Some(h) => if Shaped(s) then Outcome(Restyle(s, -h, 0), false) else Outcome(s, false)
  }

  /** `remove()`: hide, then schedule `destroy`. */
  function RemoveBanner(s: State): (out: Outcome)
    ensures out.threw <==> s.mounted.None?
    ensures !out.threw ==> out.state.pending == s.pending + [DestroyLater]
  {
    var r := HideBanner(s);
    if r.threw then r else Outcome(r.state.(pending := r.state.pending + [DestroyLater]), false)
  }

  /** `destroy()`: both nodes leave the body and the handles become null.
      `removeChild(null)` throws when they already are. */
  function DestroyBanner(s: State): (out: Outcome)
    ensures out.threw <==> s.mounted.None? || !Shaped(s)
    ensures !out.threw ==> out.state.mounted.None? && out.state.body == s.body[2..]
  {
    if s.mounted.Some? && Shaped(s) then Outcome(s.(mounted := None, body := s.body[2..]), false)
    else Outcome(s, true)
  }

  /** `closeBanner()` / `installApp()`: record the dismissal in the cookie
      named `name` for the number of days in option `key`, then remove. */
  function Dismiss(s: State, name: string, key: string, expiry: int): (out: Outcome)
    requires ValidName(name)
    ensures out.state.jar == SetCookie(s.jar, name, "true", Get(s.options, key), expiry)
    ensures out.threw <==> s.mounted.None?
    ensures out.threw ==> out.state == s.(jar := out.state.jar)
    ensures !out.threw ==> out.state.pending == s.pending + [DestroyLater] && out.state.mounted == s.mounted
    ensures !out.threw && Shaped(s) ==>
      && Shaped(out.state) && out.state.body[1].top == -s.mounted.value && out.state.body[0].height == 0
      && out.state.body[1].content == s.body[1].content && out.state.body[2..] == s.body[2..]
  {
    RemoveBanner(s.(jar := SetCookie(s.jar, name, "true", Get(s.options, key), expiry)))
  }

  // -----------------------------------------------------------------------
  // Steps

  /** One event. The click handlers exist only while the banner does. */
  function Step(s: State, e: Event): (out: Outcome)
    ensures out.state.env == s.env
  {
    match e
    case Create(opts, offsetHeight) =>
      if s.mounted.Some? then Outcome(s, false) else Init(s.(options := Merge(opts)), offsetHeight)
    case ApiShow => ShowBanner(s)
    case ApiHide => HideBanner(s)
    case ApiRemove => RemoveBanner(s)
    case ApiDestroy => DestroyBanner(s)
    case ClickClose(expiry) =>
      if s.mounted.None? then Outcome(s, false) else CookieNames(); Dismiss(s, CLOSED, "daysHidden", expiry)
    case ClickInstall(expiry) =>
      if s.mounted.None? then Outcome(s, false) else CookieNames(); Dismiss(s, INSTALLED, "daysRemind", expiry)
    case Fire(k) =>
      if k < |s.pending| then
        var s' := s.(pending := s.pending[..k] + s.pending[k + 1..]);
        match s.pending[k]
        case ShowLater => ShowBanner(s')
        case DestroyLater => DestroyBanner(s')
      else Outcome(s, false)
    case Advance(days) => Outcome(s.(now := s.now + days), false)
  }

  /** The state after a sequence of events. An exception ends only the event handler
      it was thrown in; later events still run. */
  function Run(s: State, es: seq<Event>): State
    decreases |es|
  {
    if |es| == 0 then s else Run(Step(s, es[0]).state, es[1..])
  }

  lemma CookieNames()
    ensures ValidName(CLOSED) && ValidName(INSTALLED)
  {
  }
}
