/**
 * `Europa\View\Helper\Json`: renders view variables as JavaScript
 * assignments. A dotted namespace `a.b` first gets one initialiser line per
 * segment (`window[a] = {};`, `window[a][b] = {};`), then every variable
 * becomes one line `window[a][b]["name"] = <json>;`. Values are first turned
 * into plain arrays by `makeJsonEncodable`, so objects are encoded by their
 * iterable properties.
 *
 * `json_encode` and `PHP_EOL` are not part of this model: they are the
 * parameters `enc` and `eol`. A null namespace is the empty string, which is
 * falsy in the same way.
 */
module ViewHelper {
  import opened Php
  import opened PhpString

  /** The entries that `foreach` visits on an array or an object. */
  function Entries(v: Value): seq<Entry>
  {
    match v
    case Arr(es) => es
    case Obj(_, ps) => ps
    case _ => []
  }

  /** `$arr[$k] = $v` for each entry in turn, starting from `a`. */
  function AssignAll(a: seq<Entry>, es: seq<Entry>): seq<Entry>
  {
    if es == [] then a
    else Assign(AssignAll(a, es[..|es| - 1]), es[|es| - 1].key, es[|es| - 1].val)
  }

  /**
   * `makeJsonEncodable`: an array or an object becomes the array built by
   * assigning each of its entries, converted in turn, under the same key; any
   * other value is passed through.
   */
  function MakeJsonEncodable(v: Value): (r: Value)
    decreases v, 1
    ensures !v.Arr? && !v.Obj? ==> r == v
    ensures v.Arr? || v.Obj? ==> r.Arr?
  {
    if v.Arr? || v.Obj? then Arr(AssignAll([], Converted(v))) else v
  }

  /** The entries of an array or object with each value converted, keys and order kept. */
  function Converted(v: Value): (cs: seq<Entry>)
    decreases v, 0
    ensures |cs| == |Entries(v)|
  {
    var es := Entries(v);
    assert forall i :: 0 <= i < |es| ==> es[i] in es;
    seq(|es|, i requires 0 <= i < |es| => Entry(es[i].key, MakeJsonEncodable(es[i].val)))
  }

  /** Converting keeps each key in its place and converts the value under it. */
  lemma ConvertedAt(v: Value, i: nat)
    requires i < |Entries(v)|
    ensures Converted(v)[i] == Entry(Entries(v)[i].key, MakeJsonEncodable(Entries(v)[i].val))
  {
  }

  /** What `json_encode` can take as it is: no objects, and arrays with unique keys all the way down. */
  predicate Encodable(v: Value)
    decreases v
  {
    match v
    case Obj(_, _) => false
    case Arr(es) => UniqueKeys(es) && forall i :: 0 <= i < |es| ==> Encodable(es[i].val)
    case _ => true
  }

  /** The namespace segments that get an initialiser line: none for a falsy namespace. */
  function Segments(ns: string): seq<string>
  {
    if Truthy(Str(ns)) then Explode('.', ns) else []
  }

  /** `[s1][s2]…[sk]`, with the segments as they are, unquoted. */
  function Path(segs: seq<string>): string
  {
    if segs == [] then "" else Path(segs[..|segs| - 1]) + ("[" + segs[|segs| - 1] + "]")
  }

  /** The JavaScript object the variables are assigned into. */
  function Prefix(ns: string): string
  {
    "window" + Path(Segments(ns))
  }

  /** One initialiser line per segment, each for one segment more than the one before. */
  function InitLines(segs: seq<string>, eol: string): (lines: seq<string>)
    ensures |lines| == |segs|
  {
    if segs == [] then []
    else InitLines(segs[..|segs| - 1], eol) + ["window" + Path(segs) + " = {};" + eol]
  }

  /** The assignment line for one variable. */
  function AssignLine(prefix: string, e: Entry, enc: Value -> string, eol: string): string
  {
    prefix + "[" + enc(KeyValue(e.key)) + "] = " + ToJson(enc, e.val) + ";" + eol
  }

  /** `toJson`: the encoding of the value once it has been made encodable. */
  function ToJson(enc: Value -> string, v: Value): string
  {
    enc(MakeJsonEncodable(v))
  }

  /** One assignment line per variable. */
  function AssignLines(prefix: string, vars: seq<Entry>, enc: Value -> string, eol: string): (lines: seq<string>)
    ensures |lines| == |vars|
  {
    if vars == [] then []
    else AssignLines(prefix, vars[..|vars| - 1], enc, eol) + [AssignLine(prefix, vars[|vars| - 1], enc, eol)]
  }

  /** Every line of the output, initialisers first. */
  function Lines(ns: string, vars: seq<Entry>, enc: Value -> string, eol: string): seq<string>
  {
    InitLines(Segments(ns), eol) + AssignLines(Prefix(ns), vars, enc, eol)
  }

  /** The lines written one after the other. */
  function Concat(lines: seq<string>): string
  {
    if lines == [] then "" else Concat(lines[..|lines| - 1]) + lines[|lines| - 1]
  }

  class Json {
    var vars: seq<Entry>
    var ns: string

    constructor (vars: seq<Entry>, ns: string)
      ensures this.vars == vars && this.ns == ns
    {
      this.vars := vars;
      this.ns := ns;
    }

    /**
     * The first half of `__toString`: the object the variables go into and
     * the initialiser lines for the namespace segments.
     */
    method Initialisers(eol: string) returns (prefix: string, js: string)
      ensures prefix == Prefix(ns)
      ensures js == Concat(InitLines(Segments(ns), eol))
    {
      js := "";
      prefix := "window";
      if ns != "" && ns != "0" {
        var subs := Explode('.', ns);
        var i := 0;
        while i < |subs|
          invariant 0 <= i <= |subs|
          invariant prefix == "window" + Path(subs[..i])
          invariant js == Concat(InitLines(subs[..i], eol))
        {
          InitLinesStep(subs, i, eol);
          prefix := prefix + ("[" + subs[i] + "]");
          js := js + (prefix + " = {};" + eol);
          i := i + 1;
        }
        assert subs[..i] == subs;
      }
    }

    /** The second half of `__toString`: one assignment line per variable, in order. */
    method Assignments(prefix: string, enc: Value -> string, eol: string) returns (js: string)
      ensures js == Concat(AssignLines(prefix, vars, enc, eol))
    {
      js := "";
      var j := 0;
      while j < |vars|
        invariant 0 <= j <= |vars|
        invariant js == Concat(AssignLines(prefix, vars[..j], enc, eol))
      {
        AssignLinesStep(prefix, vars, j, enc, eol);
        js := js + AssignLine(prefix, vars[j], enc, eol);
        j := j + 1;
      }
      assert vars[..j] == vars;
    }

    /** `__toString`: the initialiser lines and then the assignment lines. */
    method ToString(enc: Value -> string, eol: string) returns (js: string)
      ensures js == Concat(Lines(ns, vars, enc, eol))
    {
      var prefix, init := Initialisers(eol);
      var assigns := Assignments(prefix, enc, eol);
      js := init + assigns;
      ConcatAppend(InitLines(Segments(ns), eol), AssignLines(prefix, vars, enc, eol));
    }
  }

  /** Writing one more line appends it. */
  lemma ConcatSnoc(xs: seq<string>, x: string)
    ensures Concat(xs + [x]) == Concat(xs) + x
  {
    assert (xs + [x])[..|xs|] == xs;
  }

  /** One more segment adds its bracketed piece to the path and its initialiser line to the output. */
  lemma InitLinesStep(segs: seq<string>, i: nat, eol: string)
    requires i < |segs|
    ensures "window" + Path(segs[..i + 1]) == "window" + Path(segs[..i]) + ("[" + segs[i] + "]")
    ensures Concat(InitLines(segs[..i + 1], eol)) ==
      Concat(InitLines(segs[..i], eol)) + ("window" + Path(segs[..i + 1]) + " = {};" + eol)
  {
    assert segs[..i + 1][..i] == segs[..i];
    ConcatSnoc(InitLines(segs[..i], eol), "window" + Path(segs[..i + 1]) + " = {};" + eol);
  }

  /** One more variable adds its assignment line to the output. */
  lemma AssignLinesStep(prefix: string, vars: seq<Entry>, j: nat, enc: Value -> string, eol: string)
    requires j < |vars|
    ensures Concat(AssignLines(prefix, vars[..j + 1], enc, eol)) ==
      Concat(AssignLines(prefix, vars[..j], enc, eol)) + AssignLine(prefix, vars[j], enc, eol)
  {
    assert vars[..j + 1][..j] == vars[..j];
    ConcatSnoc(AssignLines(prefix, vars[..j], enc, eol), AssignLine(prefix, vars[j], enc, eol));
  }

  /** Writing two lists of lines is writing the first and then the second. */
  lemma {:induction false} ConcatAppend(xs: seq<string>, ys: seq<string>)
    ensures Concat(xs + ys) == Concat(xs) + Concat(ys)
  {
    if ys == [] {
      assert xs + ys == xs;
    } else {
      ConcatAppend(xs, ys[..|ys| - 1]);
      assert (xs + ys)[..|xs + ys| - 1] == xs + ys[..|ys| - 1];
    }
  }

  /**
   * With `k` segments there are `k` initialiser lines, and the `i`-th of them
   * initialises `window[s1]…[si]`.
   */
  lemma {:induction false} InitLinesAt(segs: seq<string>, eol: string)
    ensures |InitLines(segs, eol)| == |segs|
    ensures forall i :: 0 <= i < |segs| ==>
      InitLines(segs, eol)[i] == "window" + Path(segs[..i + 1]) + " = {};" + eol
  {
    if segs != [] {
      var init := segs[..|segs| - 1];
      InitLinesAt(init, eol);
      forall i | 0 <= i < |segs| - 1
        ensures InitLines(segs, eol)[i] == "window" + Path(segs[..i + 1]) + " = {};" + eol
      {
        assert init[..i + 1] == segs[..i + 1];
      }
      assert segs[..|segs|] == segs;
    }
  }

  /** Each variable gets exactly one line, in the order of the variables. */
  lemma {:induction false} AssignLinesAt(prefix: string, vars: seq<Entry>, enc: Value -> string, eol: string)
    ensures |AssignLines(prefix, vars, enc, eol)| == |vars|
    ensures forall j :: 0 <= j < |vars| ==> AssignLines(prefix, vars, enc, eol)[j] == AssignLine(prefix, vars[j], enc, eol)
  {
    if vars != [] {
      AssignLinesAt(prefix, vars[..|vars| - 1], enc, eol);
    }
  }

  /** A line ends with the terminator when it is some text followed by it. */
  predicate EndsWith(line: string, eol: string)
  {
    |line| >= |eol| && line[|line| - |eol|..] == eol
  }

  lemma EndsWithAppended(p: string, eol: string)
    ensures EndsWith(p + eol, eol)
  {
    assert (p + eol)[|p|..] == eol;
  }

  /** Every initialiser line ends with the line terminator. */
  lemma {:induction false} InitLinesEnd(segs: seq<string>, eol: string)
    ensures forall i :: 0 <= i < |InitLines(segs, eol)| ==> EndsWith(InitLines(segs, eol)[i], eol)
  {
    if segs != [] {
      var before := InitLines(segs[..|segs| - 1], eol);
      InitLinesEnd(segs[..|segs| - 1], eol);
      EndsWithAppended("window" + Path(segs) + " = {};", eol);
      assert InitLines(segs, eol) == before + ["window" + Path(segs) + " = {};" + eol];
    }
  }

  /** Every assignment line ends with the line terminator. */
  lemma {:induction false} AssignLinesEnd(prefix: string, vars: seq<Entry>, enc: Value -> string, eol: string)
    ensures forall j :: 0 <= j < |AssignLines(prefix, vars, enc, eol)| ==>
      EndsWith(AssignLines(prefix, vars, enc, eol)[j], eol)
  {
    if vars != [] {
      var e := vars[|vars| - 1];
      AssignLinesEnd(prefix, vars[..|vars| - 1], enc, eol);
      EndsWithAppended(prefix + "[" + enc(KeyValue(e.key)) + "] = " + ToJson(enc, e.val) + ";", eol);
      assert AssignLine(prefix, e, enc, eol) ==
        prefix + "[" + enc(KeyValue(e.key)) + "] = " + ToJson(enc, e.val) + ";" + eol;
    }
  }

  /** Lines that each end with the terminator still do when put one after the other. */
  lemma AllEndWith(xs: seq<string>, ys: seq<string>, eol: string)
    requires forall i :: 0 <= i < |xs| ==> EndsWith(xs[i], eol)
    requires forall j :: 0 <= j < |ys| ==> EndsWith(ys[j], eol)
    ensures forall i :: 0 <= i < |xs + ys| ==> EndsWith((xs + ys)[i], eol)
  {
    forall i | |xs| <= i < |xs + ys| ensures EndsWith((xs + ys)[i], eol) {
      assert (xs + ys)[i] == ys[i - |xs|];
    }
  }

  /**
   * The output has one line per namespace segment and one per variable,
   * each line ends with the line terminator, and a namespace with `k` dots
   * has `k + 1` segments.
   */
  lemma LinesShape(ns: string, vars: seq<Entry>, enc: Value -> string, eol: string)
    ensures |Lines(ns, vars, enc, eol)| == |Segments(ns)| + |vars|
    ensures forall i :: 0 <= i < |Lines(ns, vars, enc, eol)| ==> EndsWith(Lines(ns, vars, enc, eol)[i], eol)
    ensures Truthy(Str(ns)) ==> |Segments(ns)| == Count('.', ns) + 1
  {
    InitLinesEnd(Segments(ns), eol);
    AssignLinesEnd(Prefix(ns), vars, enc, eol);
    AllEndWith(InitLines(Segments(ns), eol), AssignLines(Prefix(ns), vars, enc, eol), eol);
  }

  /**
   * A falsy namespace (none, empty or `"0"`) gives no initialiser lines, and
   * the variables are assigned straight into `window`.
   */
  lemma FalsyNamespace(ns: string, vars: seq<Entry>, enc: Value -> string, eol: string)
    requires ns == "" || ns == "0"
    ensures Prefix(ns) == "window"
    ensures Lines(ns, vars, enc, eol) == AssignLines("window", vars, enc, eol)
  {
    assert Segments(ns) == [];
  }

  /** The namespace `a.b` has the segments `a` and `b`. */
  lemma TwoSegments()
    ensures Segments("a.b") == ["a", "b"]
  {
    assert "a.b" == "a" + ['.'] + "b";
    ExplodeFirstPiece('.', "a", "b");
    ExplodeWithoutSeparator('.', "b");
  }

  /** The paths for `a` and for `a.b`. */
  lemma TwoSegmentPath()
    ensures Path(["a"]) == "[a]" && Path(["a", "b"]) == "[a][b]"
  {
    assert ["a"][..0] == [] && ["a", "b"][..1] == ["a"];
    assert "" + "[a]" == "[a]";
    assert "[a]" + "[b]" == "[a][b]";
  }

  /** The initialiser lines for the segments `a` and `b`. */
  lemma TwoSegmentLines(eol: string)
    ensures InitLines(["a", "b"], eol) == ["window[a] = {};" + eol, "window[a][b] = {};" + eol]
  {
    TwoSegmentPath();
    var segs := ["a", "b"];
    assert segs[..1] == ["a"] && ["a"][..0] == [];
    var first := "window" + Path(["a"]) + " = {};";
    var second := "window" + Path(segs) + " = {};";
    assert first == "window[a] = {};";
    assert second == "window[a][b] = {};";
    assert InitLines(["a"], eol) == [first + eol];
    assert InitLines(segs, eol) == [first + eol] + [second + eol];
  }

  /** Segments go into the path unquoted: `a.b` initialises `window[a]` and then `window[a][b]`. */
  lemma TwoSegmentNamespace(eol: string)
    ensures Prefix("a.b") == "window[a][b]"
    ensures InitLines(Segments("a.b"), eol) == ["window[a] = {};" + eol, "window[a][b] = {};" + eol]
  {
    TwoSegments();
    TwoSegmentPath();
    TwoSegmentLines(eol);
    assert "window" + "[a][b]" == "window[a][b]";
  }

  /** Assignments only ever write entries that were already there or that were assigned. */
  lemma {:induction false} AssignAllFrom(a: seq<Entry>, es: seq<Entry>)
    ensures forall e :: e in AssignAll(a, es) ==> e in a || e in es
    ensures UniqueKeys(a) ==> UniqueKeys(AssignAll(a, es))
  {
    if es != [] {
      var init := es[..|es| - 1];
      AssignAllFrom(a, init);
      var b := AssignAll(a, init);
      var last := es[|es| - 1];
      if UniqueKeys(a) {
        AssignKeepsUnique(b, last.key, last.val);
      }
      forall e | e in AssignAll(a, es) ensures e in a || e in es {
        if e != last {
          assert e in b;
          if e in init {
            var k :| 0 <= k < |init| && init[k] == e;
            assert es[k] == e;
          }
        }
      }
    }
  }

  /** Assigning entries with distinct keys into an empty array gives them back unchanged. */
  lemma {:induction false} AssignAllDistinct(es: seq<Entry>)
    requires UniqueKeys(es)
    ensures AssignAll([], es) == es
  {
    if es != [] {
      var init := es[..|es| - 1];
      AssignAllDistinct(init);
      var last := es[|es| - 1];
      assert Find(init, last.key).None?;
      assert init + [last] == es;
    }
  }

  /** The result of `makeJsonEncodable` holds no object, and all its arrays have unique keys. */
  lemma {:induction false} MakeJsonEncodableIsEncodable(v: Value)
    decreases v
    ensures Encodable(MakeJsonEncodable(v))
  {
    if v.Arr? || v.Obj? {
      var es := Entries(v);
      var cs := Converted(v);
      forall i | 0 <= i < |es| ensures Encodable(cs[i].val) {
        ConvertedAt(v, i);
        assert es[i] in es;
        MakeJsonEncodableIsEncodable(es[i].val);
      }
      AssignAllFrom([], cs);
      var r := AssignAll([], cs);
      forall i | 0 <= i < |r| ensures Encodable(r[i].val) {
        assert r[i] in r;
        var k :| 0 <= k < |cs| && cs[k] == r[i];
      }
    }
  }

  /**
   * An array or object whose keys are distinct becomes an array with the
   * same keys in the same order, each value converted.
   */
  lemma MakeJsonEncodableKeepsKeys(v: Value)
    requires v.Arr? || v.Obj?
    requires UniqueKeys(Entries(v))
    ensures var r := MakeJsonEncodable(v).entries; var es := Entries(v);
      |r| == |es| &&
      forall i :: 0 <= i < |es| ==> r[i].key == es[i].key && r[i].val == MakeJsonEncodable(es[i].val)
    ensures Keys(MakeJsonEncodable(v).entries) == Keys(Entries(v))
  {
    var cs := Converted(v);
    var es := Entries(v);
    forall i | 0 <= i < |es| ensures cs[i] == Entry(es[i].key, MakeJsonEncodable(es[i].val)) {
      ConvertedAt(v, i);
    }
    assert UniqueKeys(cs);
    AssignAllDistinct(cs);
    assert MakeJsonEncodable(v).entries == cs;
  }

  /** A value that is already encodable comes back unchanged. */
  lemma {:induction false} EncodableUnchanged(v: Value)
    requires Encodable(v)
    decreases v
    ensures MakeJsonEncodable(v) == v
  {
    if v.Arr? {
      var es := v.entries;
      var cs := Converted(v);
      forall i | 0 <= i < |es| ensures cs[i] == es[i] {
        ConvertedAt(v, i);
        assert es[i] in es;
        EncodableUnchanged(es[i].val);
      }
      assert cs == es;
      AssignAllDistinct(es);
    }
  }

  /** Converting twice is converting once. */
  lemma MakeJsonEncodableIdempotent(v: Value)
    ensures MakeJsonEncodable(MakeJsonEncodable(v)) == MakeJsonEncodable(v)
  {
    MakeJsonEncodableIsEncodable(v);
    EncodableUnchanged(MakeJsonEncodable(v));
  }
}
