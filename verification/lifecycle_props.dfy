/** Properties of the lifecycle: the page never holds more than one banner,
    `smartBanner` is idempotent, the display toggles round-trip, destroy
    restores the page and re-arms `smartBanner`, and a dismissal keeps the
    banner away until its cookie expires. */
module LifecycleProperties {

  import opened Wrappers
  import opened JsValues
  import opened Options
  import opened Detect
  import opened Metadata
  import opened Cookies
  import opened Render
  import opened Lifecycle

  /** Only the page's own nodes. */
  predicate PageOnly(nodes: seq<Node>) {
    forall i :: 0 <= i < |nodes| ==> nodes[i].Page?
  }

  /** The banner is hidden: `bannerHeight` pixels above the top, the
      placeholder collapsed. */
  predicate Hidden(s: State)
    requires s.mounted.Some? && Shaped(s)
  {
    s.body[1].top == -s.mounted.value && s.body[0].height == 0
  }

  /** The banner is shown: at the top, the placeholder as tall as it. */
  predicate Shown(s: State)
    requires s.mounted.Some? && Shaped(s)
  {
    s.body[1].top == 0 && s.body[0].height == s.mounted.value
  }

  /** What every reachable state satisfies: a well-formed cookie jar; while
      the handles are null the body holds only the page; while they are set
      the body is placeholder, banner, then only the page, with the banner
      hidden or shown. */
  predicate Inv(s: State) {
    && WellFormed(s.jar)
    && match s.mounted
       case None => PageOnly(s.body)
       case Some(h) => h >= 2 && Shaped(s) && PageOnly(s.body[2..]) && (Hidden(s) || Shown(s))
  }

  // -----------------------------------------------------------------------
  // The invariant

  lemma StartInv(env: Env, page: seq<nat>, jar: seq<Cookie>, now: int)
    requires WellFormed(jar)
    ensures Inv(Start(env, page, jar, now))
  {
  }

  /** Every event keeps the invariant. */
  lemma StepPreservesInv(s: State, e: Event)
    requires Inv(s)
    ensures Inv(Step(s, e).state)
  {
    match e
    case Create(opts, offsetHeight) =>
      if s.mounted.None? {
        CreateInv(s.(options := Merge(opts)), offsetHeight);
      }
    case ApiShow =>
    case ApiHide =>
    case ApiRemove =>
    case ApiDestroy =>
    case ClickClose(expiry) =>
      if s.mounted.Some? {
        DismissInv(s, CLOSED, "daysHidden", expiry);
      }
    case ClickInstall(expiry) =>
      if s.mounted.Some? {
        DismissInv(s, INSTALLED, "daysRemind", expiry);
      }
    case Fire(k) =>
    case Advance(days) =>
  }

  lemma CreateInv(s: State, offsetHeight: nat)
    requires Inv(s) && s.mounted.None?
    ensures Inv(Init(s, offsetHeight).state)
  {
    var out := Init(s, offsetHeight);
    if out.state.mounted.Some? {
      var t := ResolveType(s.options, s.env);
      var id := GetAppId(t, s.env.doc).id;
      assert out.state == Mount(s, t, id, offsetHeight);
      MountInv(s, t, id, offsetHeight);
    }
  }

  /** Mounting over the bare page yields a hidden banner. */
  lemma MountInv(s: State, t: JsValue, id: string, offsetHeight: nat)
    requires Inv(s) && s.mounted.None?
    ensures Inv(Mount(s, t, id, offsetHeight))
  {
    var r := Mount(s, t, id, offsetHeight);
    assert r.body[2..] == s.body;
  }

  lemma DismissInv(s: State, name: string, key: string, expiry: int)
    requires Inv(s) && s.mounted.Some? && ValidName(name)
    ensures Inv(Dismiss(s, name, key, expiry).state)
  {
  }

  /** The invariant holds after any sequence of events. */
  lemma {:induction false} RunPreservesInv(s: State, es: seq<Event>)
    requires Inv(s)
    ensures Inv(Run(s, es))
    decreases |es|
  {
    if |es| > 0 {
      StepPreservesInv(s, es[0]);
      RunPreservesInv(Step(s, es[0]).state, es[1..]);
    }
  }

  /** Under the invariant the body holds at most one banner, and one exactly
      while the handles are set. */
  lemma SingleBanner(s: State)
    requires Inv(s)
    ensures forall i, j :: 0 <= i < |s.body| && 0 <= j < |s.body| && s.body[i].Banner? && s.body[j].Banner? ==> i == j
    ensures s.mounted.Some? <==> exists i :: 0 <= i < |s.body| && s.body[i].Banner?
  {
    if s.mounted.Some? {
      assert s.body[1].Banner?;
      forall i | 0 <= i < |s.body| && i != 1
        ensures !s.body[i].Banner?
      {
        if i >= 2 {
          assert s.body[2..][i - 2] == s.body[i];
        }
      }
    }
  }

  /** Whatever the page, the calls, the clicks and the timers, the page
      never holds two banners. */
  lemma AtMostOneBanner(env: Env, page: seq<nat>, jar: seq<Cookie>, now: int, es: seq<Event>)
    requires WellFormed(jar)
    ensures var s := Run(Start(env, page, jar, now), es);
      forall i, j :: 0 <= i < |s.body| && 0 <= j < |s.body| && s.body[i].Banner? && s.body[j].Banner? ==> i == j
  {
    StartInv(env, page, jar, now);
    RunPreservesInv(Start(env, page, jar, now), es);
    SingleBanner(Run(Start(env, page, jar, now), es));
  }

  // -----------------------------------------------------------------------
  // smartBanner(opts)

  /** While a banner exists, `smartBanner` does nothing at all. */
  lemma CreateWhileMountedIsNoOp(s: State, opts: Arg, offsetHeight: nat)
    requires s.mounted.Some?
    ensures Step(s, Create(opts, offsetHeight)) == Outcome(s, false)
  {
  }

  /** Calling `smartBanner` twice with the same options leaves the state the
      first call left. */
  lemma CreateIdempotent(s: State, opts: Arg, offsetHeight: nat)
    ensures var s1 := Step(s, Create(opts, offsetHeight)).state;
      Step(s1, Create(opts, offsetHeight)).state == s1
  {
    var s1 := Step(s, Create(opts, offsetHeight)).state;
    if s.mounted.None? && s1.mounted.None? {
      var o := Merge(opts);
      var t := ResolveType(o, s.env);
      var s0 := s.(options := o);
      assert s1.(options := o) == s0;
      assert ResolveType(s1.(options := o).options, s1.env) == t;
    }
  }

  /** The gate of `init`: the banner appears exactly when a type is known,
      the page is not a standalone app, no dismissal cookie is set and the
      platform meta tag carries an id; it throws exactly when the gate
      passes and the meta tag has no `content`. */
  lemma MountRule(s: State, opts: Arg, offsetHeight: nat)
    requires s.mounted.None?
    ensures var t := ResolveType(Merge(opts), s.env);
      var out := Step(s, Create(opts, offsetHeight));
      && (out.state.mounted.Some? <==>
            Truthy(t) && !Truthy(s.env.standalone) && !Dismissed(s, CLOSED) && !Dismissed(s, INSTALLED)
            && GetAppId(t, s.env.doc).Found?)
      && (out.threw <==>
            Truthy(t) && !Truthy(s.env.standalone) && !Dismissed(s, CLOSED) && !Dismissed(s, INSTALLED)
            && GetAppId(t, s.env.doc).ContentMissing?)
  {
  }

  /** An early return leaves everything but the options as it was. */
  lemma BlockedLeavesPage(s: State, opts: Arg, offsetHeight: nat)
    requires s.mounted.None?
    requires Blocked(s, ResolveType(Merge(opts), s.env))
    ensures Step(s, Create(opts, offsetHeight)) == Outcome(s.(options := Merge(opts)), false)
  {
  }

  /** A page opened as a standalone web app never gets a banner. */
  lemma StandaloneNeverMounts(s: State, opts: Arg, offsetHeight: nat)
    requires s.mounted.None? && Truthy(s.env.standalone)
    ensures Step(s, Create(opts, offsetHeight)) == Outcome(s.(options := Merge(opts)), false)
  {
  }

  /** Without a configured type, a user agent that is neither a supported
      iOS nor a supported Android gets no banner. */
  lemma UnsupportedNeverMounts(s: State, opts: Arg, offsetHeight: nat)
    requires s.mounted.None?
    requires var o := Merge(opts); !Truthy(Get(o, "type")) && BannerType(s.env.ua, Get(o, "verIOS"), Get(o, "verAndroid")) == Undefined
    ensures Step(s, Create(opts, offsetHeight)) == Outcome(s.(options := Merge(opts)), false)
  {
  }

  /** A configured type overrides detection: the user agent is not
      consulted. */
  lemma ConfiguredTypeWins(o: Object, env: Env, ua: string)
    requires Truthy(Get(o, "type"))
    ensures ResolveType(o, env) == Get(o, "type") == ResolveType(o, env.(ua := ua))
  {
  }

  /** A successful `smartBanner` call puts the placeholder and the banner in
      front of the page, hidden `offsetHeight + 2` pixels up, schedules the
      show, and fills the banner from the options or, where they are unset,
      from the page. */
  lemma MountedBanner(s: State, opts: Arg, offsetHeight: nat, id: string)
    requires s.mounted.None?
    requires var t := ResolveType(Merge(opts), s.env);
      !Blocked(s, t) && GetAppId(t, s.env.doc) == Found(id)
    ensures var o := Merge(opts);
      var t := ResolveType(o, s.env);
      var out := Step(s, Create(opts, offsetHeight));
      && !out.threw
      && MountedAs(s, out.state, o, t, id, offsetHeight)
  {
    var o := Merge(opts);
    var t := ResolveType(o, s.env);
    var s0 := s.(options := o);
    CreateMounts(s, opts, offsetHeight, t, id);
    MountContent(s0, t, id, offsetHeight);
  }

  /** `r` is `s` with the banner for type `t` and id `id` mounted in front of
      the page, its content taken from the options `o` or the page. */
  predicate MountedAs(s: State, r: State, o: Object, t: JsValue, id: string, offsetHeight: nat) {
    var h := offsetHeight + 2;
    && r.mounted == Some(h)
    && |r.body| == |s.body| + 2 && r.body[2..] == s.body
    && r.body[0] == Placeholder(0)
    && r.body[1].Banner? && r.body[1].top == -h
    && r.pending == s.pending + [ShowLater]
    && r.jar == s.jar && r.now == s.now && r.env == s.env
    && var c := r.body[1].content;
    && c.bannerType == t
    && c.title == Or(Get(o, "title"), Str(GetTitle(s.env.doc.title)))
    && c.author == Or(Get(o, "author"), GetAuthor(s.env.doc, s.env.loc))
    && c.icon == Or(Get(o, "icon"), GetIcon(s.env.doc, s.env.loc))
    && c.url == Or(Get(o, "url"), Str(GetLink(t, id, Get(o, "appStoreLang"))))
    && c.button == Get(o, "button")
    && c.priceLine == PriceLine(Get(o, "price"), StoreLabel(o, t))
  }

  lemma CreateMounts(s: State, opts: Arg, offsetHeight: nat, t: JsValue, id: string)
    requires s.mounted.None?
    requires t == ResolveType(Merge(opts), s.env)
    requires !Blocked(s, t) && GetAppId(t, s.env.doc) == Found(id)
    ensures Step(s, Create(opts, offsetHeight)) == Outcome(Mount(s.(options := Merge(opts)), t, id, offsetHeight), false)
  {
    var s0 := s.(options := Merge(opts));
    assert Blocked(s0, t) == Blocked(s, t);
    assert ResolveType(s0.options, s0.env) == t;
    assert Init(s0, offsetHeight) == Lookup(s0, t, offsetHeight);
    assert Lookup(s0, t, offsetHeight) == Outcome(Mount(s0, t, id, offsetHeight), false);
  }

  lemma MountContent(s: State, t: JsValue, id: string, offsetHeight: nat)
    ensures MountedAs(s, Mount(s, t, id, offsetHeight), s.options, t, id, offsetHeight)
  {
    var r := Mount(s, t, id, offsetHeight);
    var o := s.options;
    var o' := Complete(o, t, id, s.env);
    assert r.body[2..] == s.body;
    var c := r.body[1].content;
    assert c == RenderBanner(o', t);
    TemplateKeysUntouched();
    assert Get(o', "button") == Get(o, "button");
    assert Get(o', "price") == Get(o, "price");
    assert StoreLabel(o', t) == StoreLabel(o, t) by {
      assert Get(o', "inGooglePlay") == Get(o, "inGooglePlay");
      assert Get(o', "inAppStore") == Get(o, "inAppStore");
    }
    assert c.title == o'["title"] && c.author == o'["author"] && c.icon == o'["icon"] && c.url == o'["url"];
  }

  // -----------------------------------------------------------------------
  // show, hide, remove

  /** `show()` then `hide()` returns a hidden banner to exactly where it
      was. */
  lemma ShowThenHide(s: State)
    requires Inv(s) && s.mounted.Some? && Hidden(s)
    ensures var s1 := Step(s, ApiShow).state;
      && Shown(s1) && !Step(s, ApiShow).threw
      && Step(s1, ApiHide) == Outcome(s, false)
  {
    var s1 := Step(s, ApiShow).state;
    var s2 := Step(s1, ApiHide).state;
    assert s2.body == s.body by {
      assert s2.body[0] == s.body[0];
      assert s2.body[1] == s.body[1];
      assert s2.body[2..] == s.body[2..];
    }
  }

  /** `hide()` then `show()` returns a shown banner to exactly where it
      was. */
  lemma HideThenShow(s: State)
    requires Inv(s) && s.mounted.Some? && Shown(s)
    ensures var s1 := Step(s, ApiHide).state;
      && Hidden(s1) && !Step(s, ApiHide).threw
      && Step(s1, ApiShow) == Outcome(s, false)
  {
    var s1 := Step(s, ApiHide).state;
    var s2 := Step(s1, ApiShow).state;
    assert s2.body == s.body by {
      assert s2.body[0] == s.body[0];
      assert s2.body[1] == s.body[1];
      assert s2.body[2..] == s.body[2..];
    }
  }

  /** Showing twice is showing once. */
  lemma ShowIdempotent(s: State)
    requires Inv(s)
    ensures Step(Step(s, ApiShow).state, ApiShow).state == Step(s, ApiShow).state
  {
    var s1 := Step(s, ApiShow).state;
    var s2 := Step(s1, ApiShow).state;
    if s.mounted.Some? {
      assert s2.body == s1.body by {
        assert s2.body[0] == s1.body[0];
        assert s2.body[1] == s1.body[1];
        assert s2.body[2..] == s1.body[2..];
      }
    }
  }

  /** The API functions throw exactly while there is no banner. */
  lemma ApiThrowsWithoutBanner(s: State, e: Event)
    requires Inv(s) && (e.ApiShow? || e.ApiHide? || e.ApiRemove? || e.ApiDestroy?)
    ensures Step(s, e).threw <==> s.mounted.None?
    ensures Step(s, e).threw ==> Step(s, e).state == s
  {
  }

  /** `remove()` on a banner hides it at once and schedules a destroy;
      firing that destroy gives back the bare page. */
  lemma RemoveHidesThenDestroys(s: State)
    requires Inv(s) && s.mounted.Some?
    ensures var out := Step(s, ApiRemove);
      var s1 := out.state;
      && !out.threw && s1.mounted == s.mounted && Shaped(s1) && Hidden(s1)
      && s1.body[2..] == s.body[2..] && s1.jar == s.jar
      && s1.pending == s.pending + [DestroyLater]
      && var last := Step(s1, Fire(|s.pending|));
         !last.threw && last.state.mounted.None? && last.state.body == s.body[2..]
         && last.state.pending == s.pending
  {
    var s1 := Step(s, ApiRemove).state;
    var k := |s.pending|;
    assert s1.pending[k] == DestroyLater;
    assert s1.pending[..k] + s1.pending[k + 1..] == s.pending;
  }

  // -----------------------------------------------------------------------
  // destroy

  /** Destroying a freshly created banner gives back the page exactly. */
  lemma CreateThenDestroy(s: State, opts: Arg, offsetHeight: nat)
    requires Inv(s) && s.mounted.None?
    requires Step(s, Create(opts, offsetHeight)).state.mounted.Some?
    ensures var s1 := Step(s, Create(opts, offsetHeight)).state;
      var out := Step(s1, ApiDestroy);
      !out.threw && out.state.mounted.None? && out.state.body == s.body
  {
    var t := ResolveType(Merge(opts), s.env);
    MountRule(s, opts, offsetHeight);
    var id := GetAppId(t, s.env.doc).id;
    MountedBanner(s, opts, offsetHeight, id);
    var s1 := Step(s, Create(opts, offsetHeight)).state;
    StepPreservesInv(s, Create(opts, offsetHeight));
    DestroyClears(s1);
  }

  /** After `destroy()` the page holds no banner and `smartBanner` runs
      `init` again, with the same gate as the first time. */
  lemma DestroyRearms(s: State, opts: Arg, offsetHeight: nat)
    requires Inv(s) && s.mounted.Some?
    ensures var s1 := Step(s, ApiDestroy).state;
      var t := ResolveType(Merge(opts), s1.env);
      (Step(s1, Create(opts, offsetHeight)).state.mounted.Some? <==> !Blocked(s1, t) && GetAppId(t, s1.env.doc).Found?)
  {
    DestroyClears(s);
    var s1 := Step(s, ApiDestroy).state;
    MountRule(s1, opts, offsetHeight);
  }

  /** `destroy()` on a mounted banner succeeds and leaves only the page. */
  lemma DestroyClears(s: State)
    requires Inv(s) && s.mounted.Some?
    ensures var out := Step(s, ApiDestroy);
      && !out.threw && out.state.mounted.None? && PageOnly(out.state.body) && out.state.body == s.body[2..]
  {
  }

  /** Two `remove()` calls schedule two destroys: the first removes the
      banner, the second finds the handles null and throws. */
  lemma SecondDestroyThrows(s: State)
    requires Inv(s) && s.mounted.Some?
    ensures var s2 := Step(Step(s, ApiRemove).state, ApiRemove).state;
      && |s2.pending| == |s.pending| + 2
      && s2.pending[|s2.pending| - 2] == DestroyLater
      && var s3 := Step(s2, Fire(|s2.pending| - 2));
      && !s3.threw && s3.state.mounted.None?
      && s3.state.pending[|s3.state.pending| - 1] == DestroyLater
      && Step(s3.state, Fire(|s3.state.pending| - 1)).threw
  {
    var s1 := Step(s, ApiRemove).state;
    var s2 := Step(s1, ApiRemove).state;
    assert s2.pending == s.pending + [DestroyLater, DestroyLater];
    var n := |s2.pending|;
    var s3 := Step(s2, Fire(n - 2)).state;
    assert s3.pending == s.pending + [DestroyLater];
  }

  /** A show still pending when the banner is destroyed throws when it
      fires. */
  lemma ShowAfterDestroyThrows(s: State, k: nat)
    requires Inv(s) && s.mounted.Some? && k < |s.pending| && s.pending[k] == ShowLater
    ensures Step(Step(s, ApiDestroy).state, Fire(k)).threw
  {
  }

  // -----------------------------------------------------------------------
  // Dismissal

  lemma DismissalNames()
    ensures ValidName(CLOSED) && ValidName(INSTALLED) && CLOSED != INSTALLED
  {
    assert CLOSED[3] != INSTALLED[3];
  }

  /** The cookie a click writes, and the option holding its day count. */
  function DismissalCookie(e: Event): string
    requires e.ClickClose? || e.ClickInstall?
  {
    if e.ClickClose? then CLOSED else INSTALLED
  }

  function DismissalDays(e: Event): string
    requires e.ClickClose? || e.ClickInstall?
  {
    if e.ClickClose? then "daysHidden" else "daysRemind"
  }

  /** A click on the mounted banner writes its cookie, hides the banner and
      schedules the destroy, which then removes it. */
  lemma ClickThenDestroy(s: State, e: Event)
    requires Inv(s) && s.mounted.Some?
    requires e.ClickClose? || e.ClickInstall?
    ensures var s1 := Step(s, e).state;
      && s1.jar == SetCookie(s.jar, DismissalCookie(e), "true", Get(s.options, DismissalDays(e)), e.expiry)
      && s1.now == s.now && s1.mounted == s.mounted && Shaped(s1) && Hidden(s1)
      && s1.body[2..] == s.body[2..]
      && |s1.pending| > 0 && s1.pending[|s1.pending| - 1] == DestroyLater
      && var s2 := Step(s1, Fire(|s1.pending| - 1));
      && !s2.threw && s2.state.mounted.None? && s2.state.body == s.body[2..]
      && s2.state.jar == s1.jar && s2.state.now == s.now
  {
    DismissalNames();
  }

  /** A truthy dismissal cookie makes `smartBanner` return early. */
  lemma DismissedBlocks(s: State, opts: Arg, offsetHeight: nat)
    requires s.mounted.None? && (Dismissed(s, CLOSED) || Dismissed(s, INSTALLED))
    ensures Step(s, Create(opts, offsetHeight)) == Outcome(s.(options := Merge(opts)), false)
  {
    assert Dismissed(s.(options := Merge(opts)), CLOSED) == Dismissed(s, CLOSED);
    assert Dismissed(s.(options := Merge(opts)), INSTALLED) == Dismissed(s, INSTALLED);
  }

  /** After writing a dismissal cookie, it reads as truthy until its expiry
      day (for ever, for a falsy day count) and not from then on. */
  lemma DismissalWindow(s: State, jar: seq<Cookie>, name: string, exdays: JsValue, expiry: int)
    requires WellFormed(jar) && ValidName(name)
    requires s.jar == SetCookie(jar, name, "true", exdays, expiry)
    ensures !Truthy(exdays) || s.now < expiry ==> Dismissed(s, name)
    ensures Truthy(exdays) && expiry <= s.now ==> !Dismissed(s, name)
  {
    SetThenRead(jar, name, exdays, expiry, s.now);
  }

  /** Closing the banner (or following its link) and letting the scheduled
      destroy run removes the banner, and until the cookie's expiry day (for
      ever, for a falsy day count) `smartBanner` then returns early. */
  lemma DismissalSuppressesCreate(s: State, e: Event, days: nat, opts: Arg, offsetHeight: nat)
    requires Inv(s) && s.mounted.Some?
    requires e.ClickClose? || e.ClickInstall?
    requires !Truthy(Get(s.options, DismissalDays(e))) || s.now + days < e.expiry
    ensures var s1 := Step(s, e).state;
      var s3 := Step(Step(s1, Fire(|s1.pending| - 1)).state, Advance(days)).state;
      && s3.mounted.None?
      && Step(s3, Create(opts, offsetHeight)) == Outcome(s3.(options := Merge(opts)), false)
  {
    DismissalNames();
    ClickThenDestroy(s, e);
    var s1 := Step(s, e).state;
    var s3 := Step(Step(s1, Fire(|s1.pending| - 1)).state, Advance(days)).state;
    DismissalWindow(s3, s.jar, DismissalCookie(e), Get(s.options, DismissalDays(e)), e.expiry);
    DismissedBlocks(s3, opts, offsetHeight);
  }

  /** From the expiry day of a cookie with a truthy day count on, the
      dismissal no longer blocks `smartBanner`. */
  lemma DismissalExpires(s: State, e: Event, days: nat)
    requires Inv(s) && s.mounted.Some?
    requires e.ClickClose? || e.ClickInstall?
    requires Truthy(Get(s.options, DismissalDays(e))) && e.expiry <= s.now + days
    ensures var s1 := Step(s, e).state;
      var s3 := Step(Step(s1, Fire(|s1.pending| - 1)).state, Advance(days)).state;
      s3.mounted.None? && !Dismissed(s3, DismissalCookie(e))
  {
    DismissalNames();
    ClickThenDestroy(s, e);
    var s1 := Step(s, e).state;
    var s3 := Step(Step(s1, Fire(|s1.pending| - 1)).state, Advance(days)).state;
    DismissalWindow(s3, s.jar, DismissalCookie(e), Get(s.options, DismissalDays(e)), e.expiry);
  }
}
