# smartbanner.js in Dafny

A model of the core of smartbanner.js. The script shows a "smart app banner" on
iOS and Android pages: a strip at the top of the page that points to the app's
store entry. The model covers these parts.

- **Platform detection** (`getBannerType`). A pure rule over the user agent and
  the `verIOS` / `verAndroid` minimums. It follows JavaScript's `+string`
  conversion and its `>=` / `<` comparisons, where NaN compares false and
  `null` converts to 0.
- **Metadata resolvers**:
  - `getAppId` reads the `app-id=` pattern from the platform meta tag;
  - `getTitle` strips the site suffix from the page title;
  - `getAuthor` and `getIcon` fall back along their chains;
  - `getLink` builds the store URL.
- **Option merging**. `extend` copies each argument's own keys in order, so
  the last writer wins. It stops at the first falsy argument.
- **Dismissal cookies**:
  - `getCookie` reads the leftmost `(?:^|; )name=` entry of `document.cookie`;
  - `setCookie` writes an entry that expires after `exdays` days, or a
    session entry when `exdays` is falsy.
- **Rendering**. The values `render` puts into the template. The price line
  drops its price part when the price is falsy.
- **Lifecycle**. A state machine over the closure's state, the page body, the
  cookie jar and the pending timers:
  - `smartBanner(opts)` merges the options and runs `init`;
  - the gate is: a type, not standalone, no dismissal cookie, an app id;
  - `show`, `hide`, `remove` and `destroy`;
  - the close and install clicks;
  - timers fire in any order the environment chooses.

A step reports whether it threw a TypeError. Three situations throw:
- `show` or `hide` with null handles;
- `destroy` with null handles;
- a platform meta tag without a `content` attribute.

The modules are:

| file | module | what it holds |
|---|---|---|
| wrappers.dfy | Wrappers | `Option` |
| js_values.dfy | JsValues | values, truthiness, `||`, string-to-number conversion, comparisons |
| text.dfy | Text | `indexOf`, `substr`, `replace` with a one-character pattern, case-insensitive search |
| detect.dfy | Detect | `getBannerType` and its rules |
| metadata.dfy | Metadata | `getAppId`, `getTitle`, `getAuthor`, `getIcon`, `getLink` |
| options.dfy | Options | the defaults, `extend`, the merge of `smartBanner` |
| cookies.dfy | Cookies | the jar, `document.cookie`, `getCookie`, `setCookie` |
| render.dfy | Render | the banner content and the price line |
| lifecycle.dfy | Lifecycle | state, events, `init`, the API functions, `Step`, `Run` |
| lifecycle_props.dfy | LifecycleProperties | the invariant and the lifecycle properties |

Where the code and its documentation disagree, the model follows the code:

- **`getAppId`.** The documentation (smartbanner.js:182-200) gives only the
  format `app-id=<app-id_or_package-name>` and an example. The regular
  expression takes the leftmost `app-id=` that is followed by at least one
  character other than white space and commas. So for `"app-id= app-id=7"` the
  result is `"7"` (`Metadata.AppIdSkipsEmptyPrefix`).
- **`getTitle`.** The documentation (smartbanner.js:219) says the function
  returns the "Part of title before `-` or `|`". The regular expression
  `/\s*[|\-·].*$/` also treats `·` as a separator and removes the spaces
  before the separator. Its `.` does not match line terminators and `$` is the
  end of the input. On a title with line breaks, the cut is therefore at the
  first separator on the last line. The "first separator" and idempotence
  properties are stated for one-line titles.

What the code does in two cases a reader might not expect:

- **The early return on a missing app id.** It comes after
  `options.type = type`, so such a call does change `options.type`.
- **Two `remove()` calls** on a banner schedule two destroys. The second one
  finds null handles, and `removeChild(null)` throws.

## Model

| member | source | states |
|---|---|---|
| Detect.IosVersionText | smartbanner.js:170 | at most three characters: the (clipped) three after the first "OS " with the first "_" made "."; with no "OS " in the user agent, `indexOf` is -1 and the text starts at index 2 |
| Detect.IosVersionOfDigits | smartbanner.js:170 | a first "OS " followed by digit, "_", digit gives the version d1.d2 as a number |
| Detect.IosVersionExample | smartbanner.js:170 | "iPhone OS 5_1 like Mac OS X" reports version 5.1 |
| Detect.BannerType | smartbanner.js:160-180 | the answer is always "ios", "android" or undefined |
| Detect.AppleNeverAndroid | smartbanner.js:168-174 | a user agent naming iPad, iPhone or iPod never yields "android" |
| Detect.AppleRule | smartbanner.js:168-173 | on an Apple device: "ios" iff Safari and (CriOS, or the version is below 6 and at least verIOS) |
| Detect.LegacyWindowIsComparisons | smartbanner.js:171 | the JS comparisons `version < 6 && version >= verIOS` hold iff the version is a number in the window [verIOS, 6) |
| Detect.NullMinimumIsZero | smartbanner.js:171 | an unset (null) verIOS lets every version in [0, 6) through |
| Detect.NativeBannerVersionsExcluded | smartbanner.js:171 | without CriOS, a version of 6 or more, or an unparsable one, never yields "ios" |
| Detect.CriOSAlwaysPasses | smartbanner.js:171 | Safari plus CriOS yields "ios" whatever the version and the minimum |
| Detect.AndroidNeedsMatch | smartbanner.js:174-179 | "android" needs a non-Apple user agent with a match of `Android d+.d+` |
| Detect.AndroidVersionRule | smartbanner.js:165-177 | with the leftmost match capturing ip.fp: "android" iff that decimal is at least verAndroid (null counts as 0, unparsable admits nothing) |
| Detect.AndroidVersionFrom | smartbanner.js:165 | finds nothing iff no position matches; otherwise it returns the capture of a match |
| Detect.LeftmostAndroid | smartbanner.js:175 | `match` captures at the leftmost match position |
| Detect.NoMatchIsUnsupported | smartbanner.js:174-179 | a non-Apple user agent without a match yields undefined |
| Detect.MajorOnlyIsUnsupported | smartbanner.js:165 | "Android 4" with no minor part yields undefined |
| JsValues.Or | smartbanner.js:390 | `a \|\| b` is a when a is truthy and b otherwise; truthy iff either is |
| JsValues.NaNComparesFalse | smartbanner.js:171 | every `<` or `>=` with NaN on either side is false |
| JsValues.DecimalStringToNumber | smartbanner.js:176 | `+"ip.fp"` of a digits-dot-digits capture is its decimal value |
| JsValues.StringToNumber | smartbanner.js:170 | an empty or all-space string converts to 0 |
| Text.IndexOf | smartbanner.js:170 | the first position where the pattern occurs, or -1 iff it occurs nowhere |
| Text.Substr | smartbanner.js:170 | `substr` gives the in-range slice, is clipped at the end, and is empty past the end |
| Text.ReplaceFirst | smartbanner.js:170 | only the first "_" is replaced; the length is kept |
| Metadata.AppIdIn | smartbanner.js:205-213 | a non-empty run of non-space, non-comma characters; nothing iff the pattern matches nowhere |
| Metadata.AppIdFrom | smartbanner.js:211 | returns the capture of the leftmost match; finds nothing iff there is no match |
| Metadata.GetAppId | smartbanner.js:202-214 | Android reads google-play-app and every other type apple-itunes-app; no tag gives nothing; a tag without content throws and a tag with content never does; otherwise the id or nothing as the pattern decides |
| Metadata.AppIdAfterFirstPrefix | smartbanner.js:205-213 | when the first "app-id=" is followed by an id character, the id is the longest such run after it |
| Metadata.AppIdSkipsEmptyPrefix | smartbanner.js:205 | an empty first "app-id=" is skipped: "app-id= app-id=7" gives "7" |
| Metadata.AppIdLeftmost | smartbanner.js:211-213 | the leftmost match determines the id |
| Metadata.AppIdExample | smartbanner.js:190-194 | "app-id=544007664" gives "544007664" |
| Metadata.GetTitle | smartbanner.js:221-223 | a prefix of the title, cut at the leftmost suffix match; unchanged iff nothing matches |
| Metadata.TitleBeforeFirstSeparator | smartbanner.js:222 | on a one-line title: the text before the first separator, without the spaces before it, holding no separator |
| Metadata.NoSeparatorUnchanged | smartbanner.js:222 | a title without a separator is unchanged |
| Metadata.TitleIdempotent | smartbanner.js:222 | stripping a one-line title twice is stripping it once |
| Metadata.TitleDashExample | smartbanner.js:219-222 | "My App - Home" gives "My App" |
| Metadata.TitlePipeExample | smartbanner.js:219-222 | "My App \| Home" gives "My App" |
| Metadata.GetAuthor | smartbanner.js:230-233 | the author meta tag's content when the tag exists, else the host |
| Metadata.GetIcon | smartbanner.js:241-252 | the precomposed link's href, else the plain link's, else origin + "/apple-touch-icon.png" |
| Metadata.FirstFound | smartbanner.js:242 | a `$(a) \|\| $(b)` chain finds nothing iff every lookup fails, and otherwise the first element found |
| Metadata.IconFromFirstFound | smartbanner.js:241-252 | the icon is the href of the first link the chain finds, and the default only when it finds none |
| Metadata.PageLookupsDefined | smartbanner.js:230-252 | `getAuthor` and `getIcon` never answer undefined; the author is null exactly when the tag exists without content |
| Metadata.GetLink | smartbanner.js:262-267 | the URL ends with the app id |
| Metadata.LinkIgnoresLang | smartbanner.js:262-267 | the language argument does not change the URL |
| Metadata.LinkRoundTrip | smartbanner.js:263-266 | parsing the URL back gives the store (Android or App Store) and the id |
| Options.Get | smartbanner.js:276-289 | a missing property reads as undefined |
| Options.Consumed | smartbanner.js:66 | `extend` consumes exactly the arguments before the first falsy one |
| Options.Extend | smartbanner.js:60-75 | the keys are the target's plus the consumed arguments' own keys; each takes the last writer's value; unwritten target keys are kept |
| Options.Merge | smartbanner.js:444 | defaults overlaid by the caller's own keys: the caller's value where given, else the default |
| Options.NullOverwrites | smartbanner.js:66-70 | an explicitly passed null still overwrites a default |
| Options.NoOptionsIsDefaults | smartbanner.js:17-33 | without options, the merge is the defaults |
| Cookies.FindEntry | smartbanner.js:132-133 | no entry position iff the pattern matches nowhere; a found position is a match |
| Cookies.GetCookie | smartbanner.js:130-136 | nothing iff no `(?:^\|; )name=` match; a found value holds no ";" |
| Cookies.GetCookieAt | smartbanner.js:132-135 | the value is the `[^;]*` run after the leftmost match |
| Cookies.GetCookieOfJoin | smartbanner.js:130-136 | on `document.cookie` of well-formed entries, `getCookie(name)` is the value stored under name |
| Cookies.SetCookie | smartbanner.js:145-152 | the jar stays well formed; the new entry, session-only for a falsy day count, is present; other names are untouched |
| Cookies.ReadJar | smartbanner.js:130-136 | a live entry is read back with its value; an absent or expired one reads as nothing |
| Cookies.SetThenRead | smartbanner.js:145-152 | after `setCookie(name, "true", days)`, the cookie reads "true" until its expiry day, for ever for a falsy day count, and nothing from then on |
| Cookies.SetKeepsOthers | smartbanner.js:145-152 | setting one cookie leaves every other name's reading unchanged |
| Cookies.Assignment | smartbanner.js:149-151 | the `expires` attribute is present exactly for a truthy day count |
| Cookies.AssignmentReadsBack | smartbanner.js:130-151 | the string `setCookie` assigns, read with `getCookie`'s pattern, gives the value back |
| Render.StoreLabel | smartbanner.js:276 | Android uses inGooglePlay; every other type uses inAppStore |
| Render.PriceLine | smartbanner.js:289 | a truthy price gives price, separator, label; a falsy one gives the label alone |
| Render.RenderBanner | smartbanner.js:275-295 | the link, button, icon, title, author and type come from the options; the price line is as above |
| Render.DefaultPriceLines | smartbanner.js:22-26 | with the defaults: "FREE &mdash; On the App Store" or "FREE &mdash; In Google Play" |
| Render.FalsyPriceHidden | smartbanner.js:289 | a price of "", 0 or null shows only the store label |
| Lifecycle.Start | smartbanner.js:35-40 | the initial state: only the page, no banner, no timers |
| Lifecycle.ResolveType | smartbanner.js:390 | a truthy configured type wins; otherwise detection decides |
| Lifecycle.Complete | smartbanner.js:398-413 | sets type and appId; title, author, icon and url keep a truthy configured value, else take the page's; other keys are kept |
| Lifecycle.CompleteIdempotent | smartbanner.js:398-413 | completing the options a second time changes nothing |
| Lifecycle.Init | smartbanner.js:386-438 | a throw or an early return leaves body and timers alone |
| Lifecycle.Lookup | smartbanner.js:398-405 | no id leaves body and timers alone |
| Lifecycle.Mount | smartbanner.js:407-437 | placeholder (height 0) and banner (top at -(offsetHeight+2)) go in front of the body; a show is scheduled |
| Lifecycle.Restyle | smartbanner.js:362-372 | only the banner's top and the placeholder's height change |
| Lifecycle.ShowBanner | smartbanner.js:361-364 | throws iff there is no banner, changing nothing then |
| Lifecycle.HideBanner | smartbanner.js:369-372 | throws iff there is no banner, changing nothing then |
| Lifecycle.RemoveBanner | smartbanner.js:337-340 | throws iff there is no banner; otherwise a destroy is scheduled |
| Lifecycle.Dismiss | smartbanner.js:345-356 | the cookie is written with the option's day count even when the following `remove` throws; it throws iff there is no banner; otherwise the banner is hidden in place, the page kept, and a destroy scheduled |
| Lifecycle.DestroyBanner | smartbanner.js:377-381 | throws iff the handles are null; otherwise both nodes leave the body and the handles become null |
| Lifecycle.Step | smartbanner.js:441-453 | no event changes the environment |
| LifecycleProperties.StartInv | smartbanner.js:35-40 | the initial state satisfies the invariant |
| LifecycleProperties.StepPreservesInv | smartbanner.js:337-447 | every event keeps the invariant: one banner pair in front of the page, hidden or shown, with a well-formed jar |
| LifecycleProperties.CreateInv | smartbanner.js:386-438 | init keeps the invariant |
| LifecycleProperties.DismissInv | smartbanner.js:345-356 | the close and install clicks keep the invariant |
| LifecycleProperties.RunPreservesInv | smartbanner.js:337-447 | the invariant holds after any sequence of events |
| LifecycleProperties.SingleBanner | smartbanner.js:416-424 | under the invariant there is at most one banner, and one iff the handles are set |
| LifecycleProperties.AtMostOneBanner | smartbanner.js:441-447 | whatever the events, the page never holds two banners |
| LifecycleProperties.CreateWhileMountedIsNoOp | smartbanner.js:441-447 | while a banner exists, `smartBanner` changes nothing |
| LifecycleProperties.CreateIdempotent | smartbanner.js:441-447 | calling `smartBanner` twice with the same options leaves what the first call left |
| LifecycleProperties.MountRule | smartbanner.js:390-416 | the banner appears iff type, not standalone, no dismissal cookie and an app id; it throws iff the same gate passes but the meta tag has no content |
| LifecycleProperties.BlockedLeavesPage | smartbanner.js:394-396 | an early return changes only the options |
| LifecycleProperties.StandaloneNeverMounts | smartbanner.js:394 | a standalone web app never gets a banner |
| LifecycleProperties.UnsupportedNeverMounts | smartbanner.js:390-396 | with no configured type and an unsupported user agent, nothing happens |
| LifecycleProperties.ConfiguredTypeWins | smartbanner.js:390 | a configured type makes detection irrelevant |
| LifecycleProperties.MountedBanner | smartbanner.js:398-437 | a successful call mounts the banner hidden `offsetHeight + 2` up, fills it from the options or the page, and schedules the show |
| LifecycleProperties.CreateMounts | smartbanner.js:398-437 | past the gate with an id, the call mounts without throwing |
| LifecycleProperties.MountContent | smartbanner.js:407-437 | the mounted banner carries the completed options and the price line |
| LifecycleProperties.ShowThenHide | smartbanner.js:361-372 | show then hide returns a hidden banner to exactly where it was |
| LifecycleProperties.HideThenShow | smartbanner.js:361-372 | hide then show returns a shown banner to exactly where it was |
| LifecycleProperties.ShowIdempotent | smartbanner.js:361-364 | showing twice is showing once |
| LifecycleProperties.ApiThrowsWithoutBanner | smartbanner.js:361-381 | the API functions throw exactly while there is no banner, changing nothing then |
| LifecycleProperties.RemoveHidesThenDestroys | smartbanner.js:337-381 | `remove` on a banner hides it at once, keeping the page, and schedules a destroy whose firing leaves only the page |
| LifecycleProperties.CreateThenDestroy | smartbanner.js:377-381 | destroying a freshly created banner gives back the page exactly |
| LifecycleProperties.DestroyRearms | smartbanner.js:441-447 | after `destroy`, `smartBanner` runs `init` again, with the same gate |
| LifecycleProperties.DestroyClears | smartbanner.js:377-381 | `destroy` on a mounted banner succeeds and leaves only the page |
| LifecycleProperties.SecondDestroyThrows | smartbanner.js:337-381 | after two `remove` calls, the first destroy clears the banner and the second throws |
| LifecycleProperties.ShowAfterDestroyThrows | smartbanner.js:361-381 | a show still pending when the banner is destroyed throws when it fires |
| LifecycleProperties.ClickThenDestroy | smartbanner.js:345-356 | a click writes its cookie with its day count, hides the banner at once with the page kept, and schedules a destroy whose firing leaves exactly the page |
| LifecycleProperties.DismissedBlocks | smartbanner.js:394 | a truthy dismissal cookie makes `smartBanner` return early |
| LifecycleProperties.DismissalWindow | smartbanner.js:145-152 | a written dismissal cookie reads as set before its expiry day (always for a falsy day count) and unset from then on |
| LifecycleProperties.DismissalSuppressesCreate | smartbanner.js:345-447 | after a click and the destroy, `smartBanner` returns early until the cookie expires |
| LifecycleProperties.DismissalExpires | smartbanner.js:145-152 | from the expiry day on, with a truthy day count, the dismissal no longer blocks |

## Left out

- DOM access is replaced by an abstract record. This covers element lookup, `insertBefore`, `removeChild`, event binding and the template's HTML text: the page holds the first element of each kind the code queries, the body is a sequence of nodes, and the banner holds the values the template interpolates.
- JavaScript's string conversion of interpolated values (`null` printing as "null", numbers printed in decimal) is not modelled. The content holds the values themselves.
- Timer delays (`showDelay`, `animTime * 1000`) are not modelled. Pending callbacks fire in any order the environment chooses, which covers every choice of delays.
- `setAnimTiming` is not modelled. It reads computed styles and parses floats. When `animTime` is falsy it also writes `options.animTime` from the computed style (smartbanner.js:319-320), so after a mount the program's options differ from the model's on that one key. The key only feeds the delay of the destroy that `remove` schedules, and timer delays are not modelled.
- Strings are sequences of Unicode scalar values, while `indexOf`, `substr` and `\s` in the language work on UTF-16 code units. The two agree on every string without characters outside the Basic Multilingual Plane. The patterns involved are ASCII.
- Date arithmetic and `toUTCString` are outside the model. The browser's expiry day for a cookie is a parameter of the click event, and the clock is a day counter advanced by an event.
- `encodeURIComponent` and `decodeURIComponent` are not modelled, including the URIError on malformed input. The values involved ("true") are unchanged by both.
- Cookie attributes other than `expires`, the browser's cookie store beyond one entry per name, and other scripts writing cookies are not modelled.
- Lifecycle.Step: the `#smartbanner` lookup is assumed to find the inserted banner. The `.offsetHeight` the browser lays it out at is a parameter of the call.
- Lifecycle.DestroyBanner: it throws when the handles do not point at the first two body nodes. Under the invariant the handles always point there, so this fallback is never reached.
- Lifecycle.ShowBanner and Lifecycle.HideBanner: when the handles are set but do not point at the first two body nodes, they change nothing instead of restyling nodes elsewhere. Under the invariant this case is never reached either.
- `document.body` is assumed to exist. The code captures it once, when the script loads (smartbanner.js:1, 469). A script loaded in `<head>` sees `null`, and then a call that passes the gate and finds an id throws at `body.insertBefore` (smartbanner.js:416), after it has written `type`, `appId`, `title`, `author`, `icon` and `url` into the options (smartbanner.js:398-413). The model's body always exists, so it never has this throw.
- Export plumbing is not modelled: jQuery, the global object, AMD registration and the define-once guard.
- JsValues.StringToNumber: the decimal grammar is modelled over exact reals, without rounding to double precision. The versions compared are short decimals.
