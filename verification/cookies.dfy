/** The dismissal records (smartbanner.js:130-152): `getCookie` reads an entry
    out of the `document.cookie` string, and `setCookie` stores an entry that
    expires after the given days, or at the end of the session when the day
    count is falsy. The browser's cookie store is an abstract jar on a day
    clock; `document.cookie` is its live entries joined by "; ". */
module Cookies {

  import opened Wrappers
  import opened JsValues
  import opened Text

  const CLOSED: string := "smbcls"
  const INSTALLED: string := "smbinstl"
  const SEPARATOR: string := "; "

  // -----------------------------------------------------------------------
  // getCookie over the cookie string

  /** `(?:^|; )name=` matches with the entry starting at `q`. */
  predicate EntryAt(c: string, name: string, q: nat) {
    && (q == 0 || (2 <= q <= |c| && c[q - 2] == SEPARATOR[0] && c[q - 1] == SEPARATOR[1]))
    && OccursAt(c, name, q) && q + |name| < |c| && c[q + |name|] == '='
  }

  /** Length of the `[^;]*` run of `c` from `i`. */
  function ValueRun(c: string, i: nat): (n: nat)
    requires i <= |c|
    ensures i + n <= |c|
    ensures forall k :: i <= k < i + n ==> c[k] != ';'
    ensures i + n < |c| ==> c[i + n] == ';'
    decreases |c| - i
  {
    if i < |c| && c[i] != ';' then 1 + ValueRun(c, i + 1) else 0
  }

  /** The leftmost entry start at or after `from`. */
  function FindEntry(c: string, name: string, from: nat): (r: Option<nat>)
    requires from <= |c| + 1
    ensures r.None? <==> forall q :: from <= q <= |c| ==> !EntryAt(c, name, q)
    ensures r.Some? ==> from <= r.value <= |c| && EntryAt(c, name, r.value)
                        && forall q :: from <= q < r.value ==> !EntryAt(c, name, q)
    decreases |c| + 1 - from
  {
    if from > |c| then None
    else if EntryAt(c, name, from) then Some(from)
    else FindEntry(c, name, from + 1)
  }

  /** `getCookie(name)` on the cookie string `c`: the text after the leftmost
      `name=` that starts the string or follows "; ", up to the next ";". */
  function GetCookie(c: string, name: string): (r: Option<string>)
    ensures r.None? <==> forall q :: 0 <= q <= |c| ==> !EntryAt(c, name, q)
    ensures r.Some? ==> forall k :: 0 <= k < |r.value| ==> r.value[k] != ';'
  {
    match FindEntry(c, name, 0)
    case None => None
    case Some(q) => Some(ValueAt(c, q + |name| + 1))
  }

  /** The `[^;]*` text starting at `i`. */
  function ValueAt(c: string, i: nat): (v: string)
    requires i <= |c|
    ensures forall k :: 0 <= k < |v| ==> v[k] != ';'
  {
    c[i..i + ValueRun(c, i)]
  }

  /** The leftmost entry determines the answer. */
  lemma GetCookieAt(c: string, name: string, q: nat, i: nat)
    requires q <= |c| && EntryAt(c, name, q) && forall q' :: 0 <= q' < q ==> !EntryAt(c, name, q')
    requires i == q + |name| + 1
    ensures i <= |c|
    ensures GetCookie(c, name).Some? && GetCookie(c, name).value == ValueAt(c, i)
  {
    var r := FindEntry(c, name, 0);
    assert r.Some?;
    assert r.value == q;
  }

  // -----------------------------------------------------------------------
  // The cookie jar

  /** A stored cookie; `expires` is the day it stops being sent, `None` for a
      session cookie. */
  datatype Cookie = Cookie(name: string, value: string, expires: Option<int>)

  /** A name as this code can look it up: non-empty, without `=` or `;`. */
  predicate ValidName(n: string) {
    |n| > 0 && forall k :: 0 <= k < |n| ==> n[k] != '=' && n[k] != ';'
  }

  predicate ValidValue(v: string) {
    forall k :: 0 <= k < |v| ==> v[k] != ';'
  }

  /** What a browser keeps: valid names and values, one entry per name. */
  predicate WellFormed(jar: seq<Cookie>) {
    && (forall i :: 0 <= i < |jar| ==> ValidName(jar[i].name) && ValidValue(jar[i].value))
    && (forall i, j :: 0 <= i < j < |jar| ==> jar[i].name != jar[j].name)
  }

  predicate Live(ck: Cookie, now: int) {
    ck.expires.None? || now < ck.expires.value
  }

  /** The entries not yet expired on day `now`, in order. */
  function LiveEntries(jar: seq<Cookie>, now: int): (r: seq<Cookie>)
    ensures |r| <= |jar|
    ensures forall i :: 0 <= i < |r| ==> r[i] in jar && Live(r[i], now)
    ensures forall ck :: ck in jar && Live(ck, now) ==> ck in r
  {
    if |jar| == 0 then []
    else (if Live(jar[0], now) then [jar[0]] else []) + LiveEntries(jar[1..], now)
  }

  function EntryText(ck: Cookie): string {
    ck.name + "=" + ck.value
  }

  /** `document.cookie` for a list of entries. */
  function Join(entries: seq<Cookie>): string {
    if |entries| == 0 then ""
    else if |entries| == 1 then EntryText(entries[0])
    else EntryText(entries[0]) + SEPARATOR + Join(entries[1..])
  }

  /** `document.cookie` on day `now`. */
  function DocumentCookie(jar: seq<Cookie>, now: int): string {
    Join(LiveEntries(jar, now))
  }

  /** The value of the first entry named `name`. */
  function ValueOf(entries: seq<Cookie>, name: string): (r: Option<string>)
    ensures r.None? <==> forall i :: 0 <= i < |entries| ==> entries[i].name != name
    ensures r.Some? ==> exists i :: 0 <= i < |entries| && entries[i].name == name && entries[i].value == r.value
  {
    if |entries| == 0 then None
    else if entries[0].name == name then Some(entries[0].value)
    else ValueOf(entries[1..], name)
  }

  /** Reading the cookie string finds exactly the value stored under the
      name: the string-level lookup agrees with the jar. */
  lemma {:induction false} GetCookieOfJoin(entries: seq<Cookie>, name: string)
    requires WellFormed(entries) && ValidName(name)
    ensures GetCookie(Join(entries), name) == ValueOf(entries, name)
    decreases |entries|
  {
    if |entries| == 0 {
      assert forall q :: 0 <= q <= 0 ==> !EntryAt("", name, q);
    } else {
      var e := entries[0];
      var x := EntryText(e);
      if |entries| == 1 {
        assert x + "" == x;
        FirstEntry(x, "", e, name);
      } else {
        var rest := entries[1..];
        assert WellFormed(rest) by {
          assert forall i :: 0 <= i < |rest| ==> rest[i] == entries[i + 1];
        }
        GetCookieOfJoin(rest, name);
        var y := Join(rest);
        assert x + (SEPARATOR + y) == x + SEPARATOR + y;
        FirstEntry(x, SEPARATOR + y, e, name);
        EntryTextNoSemicolon(e);
        if e.name != name {
          var c := x + SEPARATOR + y;
          var d := |x| + 2;
          assert c[d..] == y;
          ShiftPastEntry(c, d, name);
          assert ValueOf(entries, name) == ValueOf(rest, name);
        }
      }
    }
  }

  /** The first entry of `x + tail` (with `tail` empty or starting with ";")
      answers the lookup when it carries the name, and never matches when it
      carries another one. */
  lemma FirstEntry(x: string, tail: string, e: Cookie, name: string)
    requires x == EntryText(e) && ValidName(e.name) && ValidValue(e.value) && ValidName(name)
    requires |tail| == 0 || tail[0] == ';'
    ensures e.name == name ==> GetCookie(x + tail, name) == Some(e.value)
    ensures e.name != name ==> forall q :: 0 <= q <= |x| + 1 && q <= |x + tail| ==> !EntryAt(x + tail, name, q)
  {
    var c := x + tail;
    var i := |name| + 1;
    if e.name == name {
      assert c[..i] == name + "=";
      assert EntryAt(c, name, 0);
      GetCookieAt(c, name, 0, i);
      ValueRunIs(c, i, |x|);
      assert c[i..|x|] == e.value;
    } else {
      EntryTextNoSemicolon(e);
      assert OccursAt(c, e.name + "=", 0) by {
        assert c[..|e.name| + 1] == x[..|e.name| + 1] == e.name + "=";
      }
      NamesDiffer(c, e.name, name);
      forall q | 2 <= q <= |x| + 1 && q <= |c|
        ensures !EntryAt(c, name, q)
      {
        assert c[q - 2] == x[q - 2];
        assert c[q - 2..q][0] == c[q - 2];
      }
    }
  }

  /** Two different valid names cannot both be followed by `=` at the start
      of the same text. */
  lemma NamesDiffer(c: string, n1: string, n2: string)
    requires ValidName(n1) && ValidName(n2) && n1 != n2
    requires OccursAt(c, n1 + "=", 0)
    ensures !OccursAt(c, n2 + "=", 0)
  {
    var p2 := n2 + "=";
    if |n1| < |n2| {
      assert c[|n1|] == (n1 + "=")[|n1|] == '=';
      assert p2[|n1|] != '=';
    } else if |n2| < |n1| {
      assert c[|n2|] == n1[|n2|] != '=';
      assert p2[|n2|] == '=';
    } else {
      var k :| 0 <= k < |n1| && n1[k] != n2[k];
      assert c[k] == n1[k];
      assert p2[k] == n2[k];
    }
  }

  /** An entry's text holds no ";". */
  lemma EntryTextNoSemicolon(e: Cookie)
    requires ValidName(e.name) && ValidValue(e.value)
    ensures forall k :: 0 <= k < |EntryText(e)| ==> EntryText(e)[k] != ';'
  {
  }

  /** `c` continues after a first entry of `d - 2` characters and the
      separator "; ". */
  predicate SplitAfterFirst(c: string, d: nat) {
    && 2 <= d <= |c| && c[d - 2] == ';' && c[d - 1] == ' '
    && forall k :: 0 <= k < d - 2 ==> c[k] != ';'
  }

  /** Entries after the first one sit at the same offsets, shifted by `d`. */
  lemma EntryShift(c: string, d: nat, name: string, q: nat)
    requires SplitAfterFirst(c, d) && q <= |c| - d
    ensures EntryAt(c, name, q + d) <==> EntryAt(c[d..], name, q)
  {
    var y := c[d..];
    if q + |name| <= |y| {
      assert c[q + d..q + d + |name|] == y[q..q + |name|];
    }
  }

  /** With no entry inside the first one, the lookup answers as on the rest. */
  lemma ShiftPastEntry(c: string, d: nat, name: string)
    requires SplitAfterFirst(c, d)
    requires forall q :: 0 <= q < d ==> !EntryAt(c, name, q)
    ensures GetCookie(c, name) == GetCookie(c[d..], name)
  {
    var y := c[d..];
    match FindEntry(y, name, 0)
    case None => ShiftNoEntry(c, d, name);
    case Some(q) =>
      ShiftFoundEntry(c, d, name, q);
      ReadShifted(c, y, d, name, q);
  }

  /** Leftmost entries at `q` in the suffix `y` and at `q + d` in the whole
      string read the same value. */
  lemma ReadShifted(c: string, y: string, d: nat, name: string, q: nat)
    requires d <= |c| && c[d..] == y
    requires q <= |y| && EntryAt(y, name, q) && forall q' :: 0 <= q' < q ==> !EntryAt(y, name, q')
    requires EntryAt(c, name, q + d) && forall q' :: 0 <= q' < q + d ==> !EntryAt(c, name, q')
    ensures GetCookie(c, name) == GetCookie(y, name)
  {
    var i := q + |name| + 1;
    var j := i + d;
    GetCookieAt(c, name, q + d, j);
    GetCookieAt(y, name, q, i);
    SameValue(c, y, d, name, i, j);
  }

  /** Lookups answering with the values at `j` of `c` and `i` of its suffix
      `y` from `d = j - i` agree. */
  lemma SameValue(c: string, y: string, d: nat, name: string, i: nat, j: nat)
    requires d <= |c| && c[d..] == y && i <= |y| && j == i + d
    requires GetCookie(c, name).Some? && GetCookie(c, name).value == ValueAt(c, j)
    requires GetCookie(y, name).Some? && GetCookie(y, name).value == ValueAt(y, i)
    ensures GetCookie(c, name) == GetCookie(y, name)
  {
    ShiftedValue(c, y, d, i, j);
  }

  lemma ShiftNoEntry(c: string, d: nat, name: string)
    requires SplitAfterFirst(c, d)
    requires forall q :: 0 <= q < d ==> !EntryAt(c, name, q)
    requires FindEntry(c[d..], name, 0).None?
    ensures GetCookie(c, name).None?
  {
    forall q | d <= q <= |c|
      ensures !EntryAt(c, name, q)
    {
      EntryShift(c, d, name, q - d);
    }
  }

  /** The leftmost entry of the rest is, shifted, the leftmost of the whole. */
  lemma ShiftFoundEntry(c: string, d: nat, name: string, q: nat)
    requires SplitAfterFirst(c, d)
    requires forall q :: 0 <= q < d ==> !EntryAt(c, name, q)
    requires q <= |c| - d && EntryAt(c[d..], name, q) && forall q' :: 0 <= q' < q ==> !EntryAt(c[d..], name, q')
    ensures EntryAt(c, name, q + d) && forall q' :: 0 <= q' < q + d ==> !EntryAt(c, name, q')
  {
    EntryShift(c, d, name, q);
    forall q' | d <= q' < q + d
      ensures !EntryAt(c, name, q')
    {
      EntryShift(c, d, name, q' - d);
    }
  }

  /** The value read at `i` in the suffix from `d` is the one read at `i + d`. */
  lemma ShiftedValue(c: string, y: string, d: nat, i: nat, j: nat)
    requires d <= |c| && c[d..] == y && i <= |y| && j == i + d
    ensures ValueAt(c, j) == ValueAt(y, i)
  {
    ValueRunShift(c, d, i);
    var n := ValueRun(y, i);
    assert c[j..j + n] == y[i..i + n];
  }

  lemma {:induction false} ValueRunIs(c: string, i: nat, j: nat)
    requires i <= j <= |c| && (j < |c| ==> c[j] == ';') && forall k :: i <= k < j ==> c[k] != ';'
    ensures ValueRun(c, i) == j - i
    decreases j - i
  {
    if i < j {
      ValueRunIs(c, i + 1, j);
    }
  }

  lemma ValueRunShift(c: string, d: nat, i: nat)
    requires d <= |c| && i <= |c| - d
    ensures ValueRun(c, i + d) == ValueRun(c[d..], i)
  {
    var y := c[d..];
    var n := ValueRun(y, i);
    ValueRunIs(c, i + d, i + d + n);
  }

  // -----------------------------------------------------------------------
  // setCookie

  /** The jar without the entry named `name`. */
  function Without(jar: seq<Cookie>, name: string): (r: seq<Cookie>)
    ensures forall ck :: ck in r <==> ck in jar && ck.name != name
  {
    if |jar| == 0 then []
    else if jar[0].name == name then Without(jar[1..], name)
    else [jar[0]] + Without(jar[1..], name)
  }

  lemma {:induction false} WithoutWellFormed(jar: seq<Cookie>, name: string)
    requires WellFormed(jar)
    ensures WellFormed(Without(jar, name))
    decreases |jar|
  {
    if |jar| > 0 {
      TailWellFormed(jar);
      WithoutWellFormed(jar[1..], name);
      var tail := Without(jar[1..], name);
      assert forall ck :: ck in tail ==> ck in jar[1..] && ck.name != jar[0].name;
    }
  }

  lemma TailWellFormed(jar: seq<Cookie>)
    requires WellFormed(jar) && |jar| > 0
    ensures WellFormed(jar[1..])
    ensures forall ck :: ck in jar[1..] ==> ck.name != jar[0].name
  {
    assert forall i :: 0 <= i < |jar| - 1 ==> jar[1..][i] == jar[i + 1];
  }

  /** `setCookie(name, value, exdays)`: replaces the entry; a truthy day count
      gives it the expiry day `expiry` (computed by the host's date arithmetic
      as today plus `exdays`), a falsy one makes it a session cookie. */
  function SetCookie(jar: seq<Cookie>, name: string, value: string, exdays: JsValue, expiry: int): (r: seq<Cookie>)
    requires ValidName(name) && ValidValue(value)
    ensures WellFormed(jar) ==> WellFormed(r)
    ensures Cookie(name, value, if Truthy(exdays) then Some(expiry) else None) in r
    ensures forall ck :: ck in r && ck.name != name ==> ck in jar
    ensures forall ck :: ck in jar && ck.name != name ==> ck in r
  {
    assert WellFormed(jar) ==> WellFormed(Without(jar, name)) by {
      if WellFormed(jar) {
        WithoutWellFormed(jar, name);
      }
    }
    Without(jar, name) + [Cookie(name, value, if Truthy(exdays) then Some(expiry) else None)]
  }

  /** The value `getCookie` reads on day `now`. */
  function Read(jar: seq<Cookie>, now: int, name: string): Option<string> {
    GetCookie(DocumentCookie(jar, now), name)
  }

  /** A live entry is read back with its value; an absent or expired one
      reads as `undefined`. */
  lemma ReadJar(jar: seq<Cookie>, now: int, name: string)
    requires WellFormed(jar) && ValidName(name)
    ensures (exists ck :: ck in jar && ck.name == name && Live(ck, now)) ==>
              exists ck :: ck in jar && ck.name == name && Live(ck, now) && Read(jar, now, name) == Some(ck.value)
    ensures (forall ck :: ck in jar && ck.name == name ==> !Live(ck, now)) ==> Read(jar, now, name) == None
  {
    var live := LiveEntries(jar, now);
    LiveWellFormed(jar, now);
    GetCookieOfJoin(live, name);
  }

  lemma {:induction false} LiveWellFormed(jar: seq<Cookie>, now: int)
    requires WellFormed(jar)
    ensures WellFormed(LiveEntries(jar, now))
    decreases |jar|
  {
    if |jar| > 0 {
      TailWellFormed(jar);
      LiveWellFormed(jar[1..], now);
      var tail := LiveEntries(jar[1..], now);
      assert forall ck :: ck in tail ==> ck in jar[1..] && ck.name != jar[0].name;
    }
  }

  /** Round trip of a dismissal record: after `setCookie(name, "true", days)`,
      `getCookie(name)` reads "true" until the expiry day (for ever for a
      session cookie) and nothing from then on. */
  lemma SetThenRead(jar: seq<Cookie>, name: string, exdays: JsValue, expiry: int, now: int)
    requires WellFormed(jar) && ValidName(name)
    ensures var jar' := SetCookie(jar, name, "true", exdays, expiry);
      && (!Truthy(exdays) || now < expiry ==> Read(jar', now, name).Some? && Read(jar', now, name).value == "true")
      && (Truthy(exdays) && expiry <= now ==> Read(jar', now, name) == None)
  {
    var jar' := SetCookie(jar, name, "true", exdays, expiry);
    var ck := Cookie(name, "true", if Truthy(exdays) then Some(expiry) else None);
    assert forall c :: c in jar' && c.name == name ==> c == ck;
    ReadJar(jar', now, name);
  }

  /** Setting one cookie leaves the reading of every other name unchanged. */
  lemma SetKeepsOthers(jar: seq<Cookie>, name: string, value: string, exdays: JsValue, expiry: int,
                       now: int, other: string)
    requires WellFormed(jar) && ValidName(name) && ValidValue(value) && ValidName(other) && other != name
    ensures Read(SetCookie(jar, name, value, exdays, expiry), now, other) == Read(jar, now, other)
  {
    var jar' := SetCookie(jar, name, value, exdays, expiry);
    ReadJar(jar, now, other);
    ReadJar(jar', now, other);
    assert forall c :: c in jar' && c.name == other <==> c in jar && c.name == other;
    assert forall c, c' :: c in jar && c' in jar && c.name == other && c'.name == other ==> c == c' by {
      forall c, c' | c in jar && c' in jar && c.name == other && c'.name == other
        ensures c == c'
      {
        var i :| 0 <= i < |jar| && jar[i] == c;
        var j :| 0 <= j < |jar| && jar[j] == c';
      }
    }
  }

  /** The cookie string the browser is handed (smartbanner.js:149-151): the
      `expires` attribute is present only for a truthy day count. */
  function Assignment(name: string, encoded: string, exdays: JsValue, expiryText: string): (r: string)
    ensures Truthy(exdays) ==> r == name + "=" + encoded + "; expires=" + expiryText + "; path=/;"
    ensures !Truthy(exdays) ==> r == name + "=" + encoded + "; path=/;"
  {
    name + "=" + encoded + (if Truthy(exdays) then "; expires=" + expiryText else "") + "; path=/;"
  }

  /** The string `setCookie` assigns, read with `getCookie`'s pattern, gives
      back the encoded value: the attributes after it are cut at the first ";". */
  lemma AssignmentReadsBack(name: string, encoded: string, exdays: JsValue, expiryText: string)
    requires ValidName(name) && ValidValue(encoded)
    ensures GetCookie(Assignment(name, encoded, exdays, expiryText), name) == Some(encoded)
  {
    var e := Cookie(name, encoded, None);
    var tail := (if Truthy(exdays) then "; expires=" + expiryText else "") + "; path=/;";
    assert Assignment(name, encoded, exdays, expiryText) == EntryText(e) + tail;
    FirstEntry(EntryText(e), tail, e, name);
  }
}
