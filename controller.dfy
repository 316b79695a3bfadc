/**
 * `Europa\Controller\ControllerAbstract`: picks the action method named by
 * the request, builds the filters declared by `@filter` tags in that method's
 * doc block, runs them in order and then calls the action with the request
 * parameters.
 *
 * Reflection is replaced by data: the controller's method names, and for
 * each method the values of its `@filter` tags. `class_exists` is membership
 * in a set of class names. Running a filter (`call_user_func`) and calling
 * the action (`invokeArgs`) are the parameters `run` and `call`; a filter
 * that throws is one for which `run` is false.
 */
module Controller {
  import opened Php
  import opened PhpString

  /** A filter object, `new $class($value)`. */
  datatype FilterObj = FilterObj(className: string, arg: string)

  /** A `@filter` tag value split into its class name and its argument. */
  datatype Tag = Tag(className: string, arg: string)

  /** The `LogicException`s the controller throws, and a filter's own exception. */
  datatype ControllerError =
    | NoActionFound(controller: string, default: Value)
    | ActionsNotFound(controller: string, action: Value, default: Value)
    | UnknownFilter(filterClass: string, controller: string)
    | FilterRejected(filter: FilterObj)

  /** What a dispatch does, in the order it does it. */
  datatype Event =
    | FilterRan(filter: FilterObj, action: string)
    | ActionCalled(action: string, params: seq<Entry>)

  /** The controller's built-in configuration. */
  const DefaultConfig: map<string, Value> :=
    map["action.default" := Str("action"), "action.param" := Str("action"), "filters.enable" := Bool(true)]

  /** A configuration setting, null when it is not set. */
  function Setting(config: map<string, Value>, name: string): Value
  {
    if name in config then config[name] else Null
  }

  /** `isset($params[$key]) ? $params[$key] : null` for the configured key. */
  function RequestedAction(params: seq<Entry>, config: map<string, Value>): Value
  {
    match ToKey(Setting(config, "action.param"))
    case Some(k) => if Isset(params, k) then Get(params, k) else Null
    case None => Null
  }

  /** `$name && method_exists($this, $name)`. */
  predicate Names(v: Value, methods: set<string>)
  {
    Truthy(v) && v.Str? && v.s in methods
  }

  /**
   * The action method to call. It succeeds exactly when the requested action
   * or the default names a method, prefers the requested action, and
   * otherwise fails with one of two errors, chosen by whether any action was
   * requested at all.
   */
  function SelectAction(action: Value, default: Value, methods: set<string>, controller: string)
    : (r: Result<string, ControllerError>)
    ensures r.Ok? <==> Names(action, methods) || Names(default, methods)
    ensures r.Ok? ==> r.value in methods
    ensures r.Ok? && Names(action, methods) ==> r.value == action.s
    ensures r.Ok? && !Names(action, methods) ==> default.Str? && r.value == default.s
    ensures r.Err? && !Truthy(action) ==> r.error == NoActionFound(controller, default)
    ensures r.Err? && Truthy(action) ==> r.error == ActionsNotFound(controller, action, default)
  {
    var hasAction := Names(action, methods);
    var hasDefault := Names(default, methods);
    if !Truthy(action) && !hasDefault then Err(NoActionFound(controller, default))
    else if !hasAction && !hasDefault then Err(ActionsNotFound(controller, action, default))
    else Ok(if hasAction then action.s else default.s)
  }

  /** `explode(' ', $value, 2)` with both pieces trimmed; no second piece gives an empty argument. */
  function ParseTag(value: string): Tag
  {
    var parts := ExplodeLimit2(' ', value);
    Tag(Trim(parts[0], Whitespace), if |parts| > 1 then Trim(parts[1], Whitespace) else "")
  }

  /**
   * A tag value splits at its first space only: the class name is the
   * trimmed text before it and the argument the trimmed text after it, or
   * the whole value is the class name and the argument is empty.
   */
  lemma ParseTagShape(value: string)
    ensures ' ' !in value ==> ParseTag(value) == Tag(Trim(value, Whitespace), "")
    ensures ' ' in value ==> var i := IndexOf(' ', value);
      ' ' !in value[..i] && value[i] == ' ' &&
      ParseTag(value) == Tag(Trim(value[..i], Whitespace), Trim(value[i + 1..], Whitespace))
  {
    IndexOfShape(' ', value);
    var parts := ExplodeLimit2(' ', value);
    var i := IndexOf(' ', value);
    if ' ' in value {
      assert parts == [value[..i], value[i + 1..]];
    }
  }

  /** The filter object a parsed tag asks for, `new $class($value)`. */
  function FilterOf(t: Tag): FilterObj
  {
    FilterObj(t.className, t.arg)
  }

  /** Every tag value parsed, in order. */
  function ParseAll(tags: seq<string>): (ts: seq<Tag>)
    ensures |ts| == |tags|
  {
    seq(|tags|, j requires 0 <= j < |tags| => ParseTag(tags[j]))
  }

  /** The position of the first tag whose class is unknown, or `|ts|`. */
  function FirstUnknown(ts: seq<Tag>, classes: set<string>): (k: nat)
    ensures k <= |ts|
  {
    if ts == [] then 0
    else if ts[0].className !in classes then 0
    else 1 + FirstUnknown(ts[1..], classes)
  }

  /** Every class before the first unknown one is known. */
  lemma {:induction false} FirstUnknownShape(ts: seq<Tag>, classes: set<string>)
    ensures forall j :: 0 <= j < FirstUnknown(ts, classes) ==> ts[j].className in classes
    ensures FirstUnknown(ts, classes) < |ts| ==> ts[FirstUnknown(ts, classes)].className !in classes
  {
    if ts != [] && ts[0].className in classes {
      FirstUnknownShape(ts[1..], classes);
    }
  }

  /** The first unknown class comes after a run of known ones. */
  lemma {:induction false} FirstUnknownAt(ts: seq<Tag>, classes: set<string>, i: nat)
    requires i <= |ts|
    requires forall j :: 0 <= j < i ==> ts[j].className in classes
    requires i < |ts| ==> ts[i].className !in classes
    ensures FirstUnknown(ts, classes) == i
  {
    if i > 0 {
      assert ts[0].className in classes;
      FirstUnknownAt(ts[1..], classes, i - 1);
    }
  }

  /** The filters for parsed tags, or the error for the first unknown class. */
  function BuildFilters(ts: seq<Tag>, classes: set<string>, controller: string)
    : (r: Result<seq<FilterObj>, ControllerError>)
    ensures r.Ok? ==> |r.value| == |ts|
  {
    if ts == [] then Ok([])
    else if ts[0].className !in classes then Err(UnknownFilter(ts[0].className, controller))
    else match BuildFilters(ts[1..], classes, controller)
      case Ok(fs) => Ok([FilterOf(ts[0])] + fs)
      case Err(e) => Err(e)
  }

  /**
   * The filters for parsed tags are one per tag, in order, exactly when
   * every class is known; otherwise the error names the first unknown class.
   */
  lemma {:induction false} BuildFiltersShape(ts: seq<Tag>, classes: set<string>, controller: string)
    ensures BuildFilters(ts, classes, controller).Ok? <==> FirstUnknown(ts, classes) == |ts|
    ensures var r := BuildFilters(ts, classes, controller);
      r.Ok? ==> forall j :: 0 <= j < |ts| ==> r.value[j] == FilterOf(ts[j])
    ensures var r := BuildFilters(ts, classes, controller);
      r.Err? ==> (FirstUnknown(ts, classes) < |ts| &&
        r.error == UnknownFilter(ts[FirstUnknown(ts, classes)].className, controller))
  {
    if ts != [] && ts[0].className in classes {
      BuildFiltersShape(ts[1..], classes, controller);
    }
  }

  /** When every class is known, the filters are exactly one per tag. */
  lemma BuildFiltersAllKnown(ts: seq<Tag>, classes: set<string>, controller: string, fs: seq<FilterObj>)
    requires FirstUnknown(ts, classes) == |ts|
    requires |fs| == |ts| && forall j :: 0 <= j < |ts| ==> fs[j] == FilterOf(ts[j])
    ensures BuildFilters(ts, classes, controller) == Ok(fs)
  {
    BuildFiltersShape(ts, classes, controller);
    var r := BuildFilters(ts, classes, controller);
    assert r.value == fs;
  }

  /** The filters that the `@filter` tag values ask for. */
  function FiltersFor(tags: seq<string>, classes: set<string>, controller: string)
    : Result<seq<FilterObj>, ControllerError>
  {
    BuildFilters(ParseAll(tags), classes, controller)
  }

  /**
   * The tag values give one filter per tag, in tag order, exactly when every
   * tag names a known class; otherwise the error names the class of the
   * first tag that does not.
   */
  lemma FiltersForShape(tags: seq<string>, classes: set<string>, controller: string)
    ensures FiltersFor(tags, classes, controller).Ok? <==>
      forall j :: 0 <= j < |tags| ==> ParseTag(tags[j]).className in classes
    ensures var r := FiltersFor(tags, classes, controller);
      r.Ok? ==> |r.value| == |tags| && forall j :: 0 <= j < |tags| ==> r.value[j] == FilterOf(ParseTag(tags[j]))
    ensures var r := FiltersFor(tags, classes, controller);
      r.Err? ==> exists k :: (0 <= k < |tags| && ParseTag(tags[k]).className !in classes &&
        (forall j :: 0 <= j < k ==> ParseTag(tags[j]).className in classes) &&
        r.error == UnknownFilter(ParseTag(tags[k]).className, controller))
  {
    var ts := ParseAll(tags);
    assert forall j :: 0 <= j < |tags| ==> ts[j] == ParseTag(tags[j]);
    BuildFiltersShape(ts, classes, controller);
    FirstUnknownShape(ts, classes);
    var k := FirstUnknown(ts, classes);
    if k < |ts| {
      assert ts[k].className !in classes;
    }
  }

  /** The position of the first filter that throws, or `|fs|` when none does. */
  function FirstRejected(fs: seq<FilterObj>, action: string, run: (FilterObj, string) -> bool): (k: nat)
    ensures k <= |fs|
  {
    if fs == [] then 0
    else if !run(fs[0], action) then 0
    else 1 + FirstRejected(fs[1..], action, run)
  }

  /** Every filter before the first one that throws runs without throwing. */
  lemma {:induction false} FirstRejectedShape(fs: seq<FilterObj>, action: string, run: (FilterObj, string) -> bool)
    ensures forall j :: 0 <= j < FirstRejected(fs, action, run) ==> run(fs[j], action)
    ensures FirstRejected(fs, action, run) < |fs| ==> !run(fs[FirstRejected(fs, action, run)], action)
  {
    if fs != [] && run(fs[0], action) {
      FirstRejectedShape(fs[1..], action, run);
    }
  }

  /** The first filter that throws comes after a run of filters that do not. */
  lemma {:induction false} FirstRejectedAt(fs: seq<FilterObj>, action: string, run: (FilterObj, string) -> bool, i: nat)
    requires i <= |fs|
    requires forall j :: 0 <= j < i ==> run(fs[j], action)
    requires i < |fs| ==> !run(fs[i], action)
    ensures FirstRejected(fs, action, run) == i
  {
    if i > 0 {
      assert run(fs[0], action);
      FirstRejectedAt(fs[1..], action, run, i - 1);
    }
  }

  /** One `FilterRan` event per filter, in order. */
  function RanAll(fs: seq<FilterObj>, action: string): (es: seq<Event>)
    ensures |es| == |fs| && forall j :: 0 <= j < |fs| ==> es[j] == FilterRan(fs[j], action)
  {
    if fs == [] then [] else RanAll(fs[..|fs| - 1], action) + [FilterRan(fs[|fs| - 1], action)]
  }

  class ControllerAbstract {
    /** `get_class($this)`. */
    const className: string
    /** The names `method_exists` finds on this controller. */
    const methods: set<string>
    /** The `@filter` tag values in each method's doc block. */
    const filterTags: map<string, seq<string>>
    var config: map<string, Value>
    var filters: seq<FilterObj>

    /** Sets up the state: the custom configuration overrides the defaults. */
    constructor (className: string, methods: set<string>, filterTags: map<string, seq<string>>,
                 custom: map<string, Value>)
      ensures this.className == className && this.methods == methods && this.filterTags == filterTags
      ensures config == ArrayMerge(DefaultConfig, custom) && filters == []
    {
      this.className := className;
      this.methods := methods;
      this.filterTags := filterTags;
      config := ArrayMerge(DefaultConfig, custom);
      filters := [];
    }

    /** The `@filter` tag values of a method. */
    function TagsOf(name: string): seq<string>
    {
      if name in filterTags then filterTags[name] else []
    }

    /** Appends one filter and returns the controller itself. */
    method AddFilter(f: FilterObj) returns (self: ControllerAbstract)
      modifies this`filters
      ensures self == this
      ensures filters == old(filters) + [f]
    {
      filters := filters + [f];
      self := this;
    }

    /**
     * Builds the filters for a list of tag values, or fails on the first
     * unknown class. The tag values are parsed before the loop; parsing has
     * no effects, so this builds the same filters and fails on the same tag
     * as parsing each value inside the loop.
     */
    method GetFiltersFor(tags: seq<string>, classes: set<string>)
      returns (r: Result<seq<FilterObj>, ControllerError>)
      ensures r == FiltersFor(tags, classes, className)
    {
      var ts := ParseAll(tags);
      r := BuildFrom(ts, classes);
    }

    method BuildFrom(ts: seq<Tag>, classes: set<string>)
      returns (r: Result<seq<FilterObj>, ControllerError>)
      ensures r == BuildFilters(ts, classes, className)
    {
      var fs: seq<FilterObj> := [];
      var i := 0;
      while i < |ts|
        invariant 0 <= i <= |ts|
        invariant forall j :: 0 <= j < i ==> ts[j].className in classes
        invariant |fs| == i && forall j :: 0 <= j < i ==> fs[j] == FilterOf(ts[j])
      {
        var t := ts[i];
        if t.className !in classes {
          r := Err(UnknownFilter(t.className, className));
          FirstUnknownAt(ts, classes, i);
          BuildFiltersShape(ts, classes, className);
          return;
        }
        fs := fs + [FilterOf(t)];
        i := i + 1;
      }
      FirstUnknownAt(ts, classes, |ts|);
      BuildFiltersAllKnown(ts, classes, className, fs);
      r := Ok(fs);
    }

    /**
     * Runs the filters in order until one throws. `passed` is the number that
     * ran without throwing, and `trace` holds every filter that ran, the one
     * that threw included.
     */
    method RunFilters(fs: seq<FilterObj>, action: string, run: (FilterObj, string) -> bool)
      returns (passed: nat, trace: seq<Event>)
      ensures passed == FirstRejected(fs, action, run)
      ensures trace == RanAll(fs[..if passed < |fs| then passed + 1 else passed], action)
    {
      trace := [];
      var i := 0;
      while i < |fs|
        invariant 0 <= i <= |fs|
        invariant forall j :: 0 <= j < i ==> run(fs[j], action)
        invariant trace == RanAll(fs[..i], action)
      {
        trace := trace + [FilterRan(fs[i], action)];
        assert fs[..i + 1][..i] == fs[..i];
        if !run(fs[i], action) {
          passed := i;
          FirstRejectedAt(fs, action, run, i);
          return;
        }
        i := i + 1;
      }
      passed := i;
      FirstRejectedAt(fs, action, run, i);
    }

    /**
     * Runs the chosen action: builds its filters, runs them in order and,
     * when none throws, calls the action with the parameters. `trace`
     * records the filters that ran and the call.
     */
    method Dispatch(chosen: string, params: seq<Entry>, classes: set<string>,
                    run: (FilterObj, string) -> bool, call: (string, seq<Entry>) -> Value)
      returns (r: Result<Value, ControllerError>, trace: seq<Event>)
      ensures var fs := FiltersFor(TagsOf(chosen), classes, className);
        fs.Err? ==> r == Err(fs.error) && trace == []
      ensures var fs := FiltersFor(TagsOf(chosen), classes, className);
        fs.Ok? ==> var k := FirstRejected(fs.value, chosen, run);
          if k < |fs.value| then
            r == Err(FilterRejected(fs.value[k])) && trace == RanAll(fs.value[..k + 1], chosen)
          else
            r == Ok(call(chosen, params)) &&
            trace == RanAll(fs.value, chosen) + [ActionCalled(chosen, params)]
    {
      trace := [];
      var built := GetFiltersFor(TagsOf(chosen), classes);
      if built.Err? {
        r := Err(built.error);
        return;
      }
      var fs := built.value;
      var passed;
      passed, trace := RunFilters(fs, chosen, run);
      if passed < |fs| {
        r := Err(FilterRejected(fs[passed]));
        return;
      }
      trace := trace + [ActionCalled(chosen, params)];
      r := Ok(call(chosen, params));
    }

    /**
     * `__invoke`: selects the action and dispatches to it. A selection error
     * stops before any filter runs.
     */
    method Invoke(params: seq<Entry>, classes: set<string>,
                  run: (FilterObj, string) -> bool, call: (string, seq<Entry>) -> Value)
      returns (r: Result<Value, ControllerError>, trace: seq<Event>)
      ensures var sel := SelectAction(RequestedAction(params, config), Setting(config, "action.default"),
                                      methods, className);
        sel.Err? ==> r == Err(sel.error) && trace == []
      ensures var sel := SelectAction(RequestedAction(params, config), Setting(config, "action.default"),
                                      methods, className);
        sel.Ok? ==> var fs := FiltersFor(TagsOf(sel.value), classes, className);
          fs.Err? ==> r == Err(fs.error) && trace == []
      ensures var sel := SelectAction(RequestedAction(params, config), Setting(config, "action.default"),
                                      methods, className);
        sel.Ok? ==> var fs := FiltersFor(TagsOf(sel.value), classes, className);
          fs.Ok? ==> var k := FirstRejected(fs.value, sel.value, run);
            if k < |fs.value| then
              r == Err(FilterRejected(fs.value[k])) && trace == RanAll(fs.value[..k + 1], sel.value)
            else
              r == Ok(call(sel.value, params)) &&
              trace == RanAll(fs.value, sel.value) + [ActionCalled(sel.value, params)]
    {
      var action := RequestedAction(params, config);
      var default := Setting(config, "action.default");
      var sel := SelectAction(action, default, methods, className);
      if sel.Err? {
        r, trace := Err(sel.error), [];
        return;
      }
      r, trace := Dispatch(sel.value, params, classes, run, call);
    }
  }

  /**
   * `isset` followed by a read gives the same value as the read alone, so
   * the requested action is the parameter under the configured key, or null.
   */
  lemma RequestedActionIsParam(params: seq<Entry>, config: map<string, Value>)
    requires ToKey(Setting(config, "action.param")).Some?
    ensures RequestedAction(params, config) == Get(params, ToKey(Setting(config, "action.param")).value)
  {
  }

  /** Unless the custom configuration says otherwise, the action is read from `action`. */
  lemma DefaultActionParam(params: seq<Entry>, custom: map<string, Value>)
    requires "action.param" !in custom
    ensures Setting(ArrayMerge(DefaultConfig, custom), "action.param") == Str("action")
    ensures RequestedAction(params, ArrayMerge(DefaultConfig, custom)) == Get(params, StrKey("action"))
  {
  }

  /** Unless the custom configuration says otherwise, the default action is `action`. */
  lemma DefaultActionName(custom: map<string, Value>)
    requires "action.default" !in custom
    ensures Setting(ArrayMerge(DefaultConfig, custom), "action.default") == Str("action")
  {
  }

  /** An existing action is chosen even when the default does not exist. */
  lemma ExistingActionWins(action: string, default: Value, methods: set<string>, controller: string)
    requires action in methods && action != "" && action != "0"
    ensures SelectAction(Str(action), default, methods, controller) == Ok(action)
  {
  }
}
