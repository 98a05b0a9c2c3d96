/** Configuration (smartbanner.js:17-33, 60-75, 444): an options object is a
    map from own property names to values, the defaults are a constant, and
    `extend` merges argument objects into a target with later keys winning. */
module Options {

  import opened JsValues

  /** An object's own enumerable properties. */
  type Object = map<string, JsValue>

  /** An argument of `extend`: an object, or a falsy value (`undefined`,
      `null`, ...), which ends the merge. */
  datatype Arg = Obj(props: Object) | Falsy

  /** Property read: a missing property reads as `undefined`. */
  function Get(o: Object, key: string): (r: JsValue)
    ensures key !in o ==> r == Undefined
    ensures key in o ==> r == o[key]
  {
    if key in o then o[key] else Undefined
  }

  /** The configuration defaults. */
  const DEFAULTS: Object := map[
    "type" := Null,
    "icon" := Null,
    "title" := Null,
    "author" := Null,
    "price" := Str("FREE"),
    "button" := Str("VIEW"),
    "url" := Null,
    "inGooglePlay" := Str("In Google Play"),
    "inAppStore" := Str("On the App Store"),
    "showDelay" := Num(Fin(300.0)),
    "animTime" := Null,
    "daysHidden" := Num(Fin(15.0)),
    "daysRemind" := Num(Fin(30.0)),
    "verIOS" := Null,
    "verAndroid" := Null
  ]

  /** How many leading arguments `extend` consumes: up to the first falsy one. */
  function Consumed(args: seq<Arg>): (n: nat)
    ensures n <= |args|
    ensures forall i :: 0 <= i < n ==> args[i].Obj?
    ensures n < |args| ==> args[n].Falsy?
  {
    if |args| == 0 || args[0].Falsy? then 0 else 1 + Consumed(args[1..])
  }

  /** Argument `i` has an own property `key`. */
  predicate Writes(args: seq<Arg>, i: nat, key: string) {
    i < |args| && args[i].Obj? && key in args[i].props
  }

  /** `extend(target, args...)`: copies the own properties of each argument,
      in order, into `target`, stopping at the first falsy argument. */
  function Extend(target: Object, args: seq<Arg>): (r: Object)
    ensures forall key :: key in r <==> key in target || exists i :: 0 <= i < Consumed(args) && Writes(args, i, key)
    ensures forall key, i ::
              (0 <= i < Consumed(args) && Writes(args, i, key) && forall j :: i < j < Consumed(args) ==> !Writes(args, j, key))
              ==> r[key] == args[i].props[key]
    ensures forall key :: key in target && (forall j :: 0 <= j < Consumed(args) ==> !Writes(args, j, key)) ==>
              r[key] == target[key]
    decreases |args|
  {
    if |args| == 0 then target
    else match args[0]
      case Falsy => target
      case Obj(m) =>
        var rest := args[1..];
        var r := Extend(target + m, rest);
        ExtendStep(target, m, args, r);
        r
  }

  /** The inductive step of `Extend`'s contract: merging the first object and
      then the rest keeps the "last writer wins" description. */
  lemma ExtendStep(target: Object, m: Object, args: seq<Arg>, r: Object)
    requires |args| > 0 && args[0] == Obj(m)
    requires var rest := args[1..];
      && (forall key :: key in r <==> key in target + m || exists i :: 0 <= i < Consumed(rest) && Writes(rest, i, key))
      && (forall key, i ::
            (0 <= i < Consumed(rest) && Writes(rest, i, key) && forall j :: i < j < Consumed(rest) ==> !Writes(rest, j, key))
            ==> r[key] == rest[i].props[key])
      && (forall key :: key in target + m && (forall j :: 0 <= j < Consumed(rest) ==> !Writes(rest, j, key)) ==>
            r[key] == (target + m)[key])
    ensures forall key :: key in r <==> key in target || exists i :: 0 <= i < Consumed(args) && Writes(args, i, key)
    ensures forall key, i ::
              (0 <= i < Consumed(args) && Writes(args, i, key) && forall j :: i < j < Consumed(args) ==> !Writes(args, j, key))
              ==> r[key] == args[i].props[key]
    ensures forall key :: key in target && (forall j :: 0 <= j < Consumed(args) ==> !Writes(args, j, key)) ==>
              r[key] == target[key]
  {
    ExtendStepKeys(target, m, args, r);
    ExtendStepLastWriter(target, m, args, r);
    ExtendStepUntouched(target, m, args, r);
  }

  /** The keys part of `ExtendStep`. */
  lemma ExtendStepKeys(target: Object, m: Object, args: seq<Arg>, r: Object)
    requires |args| > 0 && args[0] == Obj(m)
    requires var rest := args[1..];
      forall key :: key in r <==> key in target + m || exists i :: 0 <= i < Consumed(rest) && Writes(rest, i, key)
    ensures forall key :: key in r <==> key in target || exists i :: 0 <= i < Consumed(args) && Writes(args, i, key)
  {
    var rest := args[1..];
    var n := Consumed(args);
    assert n == 1 + Consumed(rest);
    forall key | key in r
      ensures key in target || exists i :: 0 <= i < n && Writes(args, i, key)
    {
      if key in m {
        assert Writes(args, 0, key);
      } else if key !in target {
        var i :| 0 <= i < Consumed(rest) && Writes(rest, i, key);
        assert Writes(args, i + 1, key);
      }
    }
    forall key | key in target || exists i :: 0 <= i < n && Writes(args, i, key)
      ensures key in r
    {
      if key !in target {
        var i :| 0 <= i < n && Writes(args, i, key);
        if i > 0 {
          assert Writes(rest, i - 1, key);
        }
      }
    }
  }

  /** The last-writer part of `ExtendStep`. */
  lemma ExtendStepLastWriter(target: Object, m: Object, args: seq<Arg>, r: Object)
    requires |args| > 0 && args[0] == Obj(m)
    requires var rest := args[1..];
      && (forall key :: key in r <==> key in target + m || exists i :: 0 <= i < Consumed(rest) && Writes(rest, i, key))
      && (forall key, i ::
            (0 <= i < Consumed(rest) && Writes(rest, i, key) && forall j :: i < j < Consumed(rest) ==> !Writes(rest, j, key))
            ==> r[key] == rest[i].props[key])
      && (forall key :: key in target + m && (forall j :: 0 <= j < Consumed(rest) ==> !Writes(rest, j, key)) ==>
            r[key] == (target + m)[key])
    ensures forall key, i ::
              (0 <= i < Consumed(args) && Writes(args, i, key) && forall j :: i < j < Consumed(args) ==> !Writes(args, j, key))
              ==> key in r && r[key] == args[i].props[key]
  {
    ExtendStepKeys(target, m, args, r);
    var rest := args[1..];
    var n := Consumed(args);
    assert n == 1 + Consumed(rest);
    forall key, i | 0 <= i < n && Writes(args, i, key) && (forall j :: i < j < n ==> !Writes(args, j, key))
      ensures key in r && r[key] == args[i].props[key]
    {
      if i > 0 {
        assert Writes(rest, i - 1, key);
        assert forall j :: i - 1 < j < Consumed(rest) ==> !Writes(rest, j, key) by {
          forall j | i - 1 < j < Consumed(rest) ensures !Writes(rest, j, key) {
            assert !Writes(args, j + 1, key);
          }
        }
      } else {
        assert forall j :: 0 <= j < Consumed(rest) ==> !Writes(rest, j, key) by {
          forall j | 0 <= j < Consumed(rest) ensures !Writes(rest, j, key) {
            assert !Writes(args, j + 1, key);
          }
        }
      }
    }
  }

  /** The untouched-keys part of `ExtendStep`. */
  lemma ExtendStepUntouched(target: Object, m: Object, args: seq<Arg>, r: Object)
    requires |args| > 0 && args[0] == Obj(m)
    requires var rest := args[1..];
      && (forall key :: key in r <==> key in target + m || exists i :: 0 <= i < Consumed(rest) && Writes(rest, i, key))
      && (forall key, i ::
            (0 <= i < Consumed(rest) && Writes(rest, i, key) && forall j :: i < j < Consumed(rest) ==> !Writes(rest, j, key))
            ==> r[key] == rest[i].props[key])
      && (forall key :: key in target + m && (forall j :: 0 <= j < Consumed(rest) ==> !Writes(rest, j, key)) ==>
            r[key] == (target + m)[key])
    ensures forall key :: key in target && (forall j :: 0 <= j < Consumed(args) ==> !Writes(args, j, key)) ==>
              r[key] == target[key]
  {
    var rest := args[1..];
    forall key | key in target && (forall j :: 0 <= j < Consumed(args) ==> !Writes(args, j, key))
      ensures r[key] == target[key]
    {
      assert !Writes(args, 0, key);
      forall j | 0 <= j < Consumed(rest) ensures !Writes(rest, j, key) {
        assert !Writes(args, j + 1, key);
      }
    }
  }

  /** The merge `smartBanner(opts)` performs: defaults, then the caller's
      options. */
  function Merge(opts: Arg): (o: Object)
    ensures forall key :: key in o <==> key in DEFAULTS || (opts.Obj? && key in opts.props)
    ensures forall key :: opts.Obj? && key in opts.props ==> o[key] == opts.props[key]
    ensures forall key :: key in DEFAULTS && !(opts.Obj? && key in opts.props) ==> o[key] == DEFAULTS[key]
  {
    var args := [Obj(DEFAULTS), opts];
    assert Consumed(args) == if opts.Obj? then 2 else 1;
    var o := Extend(map[], args);
    forall key | key in o
      ensures key in DEFAULTS || (opts.Obj? && key in opts.props)
    {
      var i :| 0 <= i < Consumed(args) && Writes(args, i, key);
    }
    forall key | key in DEFAULTS || (opts.Obj? && key in opts.props)
      ensures key in o
    {
      if key in DEFAULTS {
        assert Writes(args, 0, key);
      } else {
        assert Writes(args, 1, key);
      }
    }
    forall key | key in DEFAULTS && !(opts.Obj? && key in opts.props)
      ensures o[key] == DEFAULTS[key]
    {
      assert Writes(args, 0, key);
    }
    forall key | opts.Obj? && key in opts.props
      ensures o[key] == opts.props[key]
    {
      assert Writes(args, 1, key);
    }
    o
  }

  /** An explicitly passed `null` still overwrites a default. */
  lemma NullOverwrites(opts: Object, key: string)
    requires key in opts && opts[key] == Null
    ensures Get(Merge(Obj(opts)), key) == Null
  {
  }

  /** Without options (or with a falsy argument) the merge is the defaults. */
  lemma NoOptionsIsDefaults()
    ensures Merge(Falsy) == DEFAULTS
  {
  }
}
