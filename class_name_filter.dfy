/**
 * `Europa\Filter\ClassNameFilter`: turns a value such as `index/user_admin`
 * into a fully qualified class name such as `\Index\User\Admin`. The filter
 * wraps the value in the configured prefix and suffix, strips `\` from both
 * ends, turns every directory separator, `/` and `_` into `\`, splits at `\`,
 * upper-camel-cases each piece and joins the pieces again behind a leading
 * `\`.
 *
 * `UpperCamelCaseFilter` and the platform's `DIRECTORY_SEPARATOR` are not
 * part of this model: they are the parameters `ucc` and `ds`.
 */
module Filter {
  import opened Php
  import opened PhpString

  /** The namespace separator that class names are built with. */
  const Backslash: char := '\\'

  /** The filter's built-in configuration. */
  const DefaultConfig: map<string, string> := map["prefix" := "", "suffix" := ""]

  /** The characters that are rewritten to `\`, in the order they are replaced. */
  function Separators(ds: char): seq<char>
  {
    [ds, '/', '_']
  }

  /** The value with the prefix and suffix around it and `\` trimmed off both ends. */
  function Trimmed(prefix: string, value: string, suffix: string): string
  {
    Trim(prefix + value + suffix, {Backslash})
  }

  /** The trimmed value with every separator rewritten to `\`. */
  function Normalized(prefix: string, value: string, suffix: string, ds: char): string
  {
    StrReplace(Separators(ds), Backslash, Trimmed(prefix, value, suffix))
  }

  /** The namespace parts of the value, before they are camel-cased. */
  function Parts(prefix: string, value: string, suffix: string, ds: char): seq<string>
  {
    Explode(Backslash, Normalized(prefix, value, suffix, ds))
  }

  /** `ucc` applied to each part, in order. */
  function MapParts(ucc: string -> string, parts: seq<string>): (r: seq<string>)
    ensures |r| == |parts| && forall i :: 0 <= i < |parts| ==> r[i] == ucc(parts[i])
  {
    if parts == [] then [] else [ucc(parts[0])] + MapParts(ucc, parts[1..])
  }

  class ClassNameFilter {
    var config: map<string, string>

    ghost predicate Valid()
      reads this
    {
      "prefix" in config && "suffix" in config
    }

    /** The custom configuration overrides the defaults key by key. */
    constructor (custom: map<string, string>)
      ensures config == ArrayMerge(DefaultConfig, custom)
      ensures Valid()
    {
      config := ArrayMerge(DefaultConfig, custom);
    }

    /**
     * The class name for `value`: a `\` followed by the camel-cased parts,
     * one per part and in order, joined by `\`.
     */
    method Filter(value: string, ucc: string -> string, ds: char) returns (r: string)
      requires Valid()
      ensures var parts := Parts(config["prefix"], value, config["suffix"], ds);
        |r| >= 1 && r[0] == Backslash && r[1..] == Implode(Backslash, MapParts(ucc, parts))
    {
      var v := config["prefix"] + value + config["suffix"];
      v := Trim(v, {Backslash});
      v := StrReplace(Separators(ds), Backslash, v);
      var parts := Explode(Backslash, v);
      ghost var original := parts;
      var i := 0;
      while i < |parts|
        invariant 0 <= i <= |parts| == |original|
        invariant forall j :: 0 <= j < i ==> parts[j] == ucc(original[j])
        invariant forall j :: i <= j < |parts| ==> parts[j] == original[j]
      {
        parts := parts[i := ucc(parts[i])];
        i := i + 1;
      }
      assert parts == MapParts(ucc, original);
      r := [Backslash] + Implode(Backslash, parts);
    }
  }

  /**
   * After trimming, the working string neither begins nor ends with `\`,
   * and it is the wrapped value with only `\` cut from its ends.
   */
  lemma TrimmedShape(prefix: string, value: string, suffix: string)
    ensures var t := Trimmed(prefix, value, suffix);
      t != [] ==> t[0] != Backslash && t[|t| - 1] != Backslash
    ensures var w := prefix + value + suffix; var t := Trimmed(prefix, value, suffix);
      w != [] && w[0] != Backslash ==> t != [] && t[0] == w[0]
  {
    TrimShape(prefix + value + suffix, {Backslash});
  }

  /**
   * Normalizing leaves no directory separator, `/` or `_`: each became `\`,
   * and every other character is unchanged.
   */
  lemma NormalizedShape(prefix: string, value: string, suffix: string, ds: char)
    ensures var t := Trimmed(prefix, value, suffix); var n := Normalized(prefix, value, suffix, ds);
      |n| == |t| &&
      (forall i :: 0 <= i < |t| ==> n[i] == if t[i] in {ds, '/', '_'} then Backslash else t[i])
    ensures var n := Normalized(prefix, value, suffix, ds);
      '/' !in n && '_' !in n && (ds == Backslash || ds !in n)
  {
    var t := Trimmed(prefix, value, suffix);
    var n := Normalized(prefix, value, suffix, ds);
    forall i | 0 <= i < |n|
      ensures n[i] == (if t[i] in {ds, '/', '_'} then Backslash else t[i])
    {
      assert t[i] in Separators(ds) <==> t[i] in {ds, '/', '_'};
    }
  }

  /**
   * There is one part more than there are `\` in the normalized string, no
   * part holds a separator of any kind, and the parts in order make up the
   * normalized string.
   */
  lemma PartsShape(prefix: string, value: string, suffix: string, ds: char)
    ensures var n := Normalized(prefix, value, suffix, ds); var ps := Parts(prefix, value, suffix, ds);
      |ps| == Count(Backslash, n) + 1 && Implode(Backslash, ps) == n
    ensures var ps := Parts(prefix, value, suffix, ds);
      forall i :: 0 <= i < |ps| ==> Backslash !in ps[i] && ds !in ps[i] && '/' !in ps[i] && '_' !in ps[i]
  {
    NormalizedShape(prefix, value, suffix, ds);
    var n := Normalized(prefix, value, suffix, ds);
    var ps := Parts(prefix, value, suffix, ds);
    forall i, k | 0 <= i < |ps| && 0 <= k < |ps[i]| ensures ps[i][k] in n {
      PieceInImplode(Backslash, ps, i, k);
    }
  }

  /**
   * When the camel-case filter never produces a `\`, splitting the class
   * name after its leading `\` gives back exactly the camel-cased parts.
   */
  lemma ClassNameSplits(parts: seq<string>, ucc: string -> string)
    requires |parts| >= 1
    requires forall p :: Backslash !in ucc(p)
    ensures Explode(Backslash, Implode(Backslash, MapParts(ucc, parts))) == MapParts(ucc, parts)
  {
    ExplodeImplode(Backslash, MapParts(ucc, parts));
  }

  /**
   * Only `\` is trimmed: a value that starts with `/` gets an empty first
   * part, because the `/` becomes a separator after the trim step.
   */
  lemma LeadingSlashGivesEmptyPart(value: string, ds: char)
    requires value != [] && value[0] == '/'
    ensures Parts("", value, "", ds)[0] == ""
  {
    assert "" + value + "" == value;
    TrimShape(value, {Backslash});
    NormalizedShape("", value, "", ds);
    var n := Normalized("", value, "", ds);
    assert n[0] == Backslash;
  }
}
