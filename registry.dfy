/**
 * The component registry of `ccm.component`: component indices taken from
 * file names (`getIndex`) or from the component's own declaration
 * (`setIndex`), first-time-only registration with its setup, and the
 * copies handed out by `finish` with an overriding default configuration.
 */
module Registry {
  import opened JsStrings
  import opened JsValues
  import opened Helpers

  /*------------------------------------------ the filename pattern ------------------------------------------*/

  /** `[^.-]+`: a component name. */
  predicate IsBareName(n: string)
  {
    |n| > 0 && '.' !in n && '-' !in n
  }

  /** `(0|[1-9][0-9]*)\.(0|[1-9][0-9]*)\.(0|[1-9][0-9]*)`: a version number. */
  predicate IsVersionText(v: string)
  {
    var parts := Split(v, '.');
    |parts| == 3 && IsNumeral(parts[0]) && IsNumeral(parts[1]) && IsNumeral(parts[2])
  }

  /** A name with an optional version: `dummy` or `dummy-3.2.1`. */
  predicate IsCoreName(m: string)
  {
    IsBareName(m) ||
    (var k := IndexOf(m, '-'); k != -1 && IsBareName(m[..k]) && IsVersionText(m[k + 1..]))
  }

  /**
   * The `filename` pattern
   * `^ccm\.([^.-]+)(-(0|[1-9][0-9]*)\.(0|[1-9][0-9]*)\.(0|[1-9][0-9]*))?(\.min)?(\.js)$`:
   * "ccm.", a name with an optional version, an optional ".min", then ".js".
   */
  predicate IsComponentFilename(f: string)
  {
    |f| >= 7 && StartsWith(f, "ccm.") && EndsWith(f, ".js") &&
    var m := f[4..|f| - 3];
    IsCoreName(m) || (EndsWith(m, ".min") && IsCoreName(m[..|m| - 4]))
  }

  /** `url.split('/').pop()`: the last path segment. */
  function FileName(url: string): string
  {
    var parts := Split(url, '/');
    parts[|parts| - 1]
  }

  /*------------------------------------------ getIndex ------------------------------------------*/

  /** The dot-separated parts of a file name without a leading "ccm" and without the last part ("js"). */
  function Trimmed(split: seq<string>): seq<string>
  {
    var shifted := if |split| > 0 && split[0] == "ccm" then split[1..] else split;
    if |shifted| > 0 then shifted[..|shifted| - 1] else shifted
  }

  /**
   * The index of a component file name as `getIndex` computes it: '' outside
   * the pattern, otherwise the parts without "ccm", "js" and a final "min".
   */
  function FileIndexAsWritten(f: string): (r: string)
    ensures !IsComponentFilename(f) ==> r == ""
  {
    if !IsComponentFilename(f) then ""
    else
      var p := Trimmed(Split(f, '.'));
      Join(if |p| > 0 && p[|p| - 1] == "min" then p[..|p| - 1] else p, '.')
  }

  /** The same, with a "min" part dropped only when a name remains in front of it. */
  function FileIndex(f: string): (r: string)
    ensures !IsComponentFilename(f) ==> r == ""
  {
    if !IsComponentFilename(f) then ""
    else
      var p := Trimmed(Split(f, '.'));
      Join(if |p| > 1 && p[|p| - 1] == "min" then p[..|p| - 1] else p, '.')
  }

  /** `getIndex(url)` as written: a string without ".js" is already an index, otherwise its file name decides. */
  function GetIndexAsWritten(url: string): (r: string)
    ensures !Contains(url, ".js") ==> r == url
    ensures Contains(url, ".js") && !IsComponentFilename(FileName(url)) ==> r == ""
  {
    if !Contains(url, ".js") then url else FileIndexAsWritten(FileName(url))
  }

  /** `getIndex(url)` keeping the name of a component called "min". */
  function GetIndex(url: string): (r: string)
    ensures !Contains(url, ".js") ==> r == url
    ensures Contains(url, ".js") && !IsComponentFilename(FileName(url)) ==> r == ""
  {
    if !Contains(url, ".js") then url else FileIndex(FileName(url))
  }

  /** Splitting a string without the separator gives the string itself. */
  lemma SplitNone(s: string, c: char)
    requires c !in s
    ensures Split(s, c) == [s]
  {
  }

  /** The file name of a component: "ccm.", its name and version, ".min" when minified, ".js". */
  function FileNameOf(core: string, min: bool): string
  {
    "ccm." + core + (if min then ".min" else "") + ".js"
  }

  lemma FileMatches(core: string, min: bool)
    requires IsCoreName(core)
    ensures IsComponentFilename(FileNameOf(core, min))
  {
    var m := core + (if min then ".min" else "");
    var f := "ccm." + m + ".js";
    assert f == FileNameOf(core, min);
    Framed("ccm.", m, ".js");
    assert |f| >= 7;
    assert StartsWith(f, "ccm.");
    assert EndsWith(f, ".js");
    assert f[4..|f| - 3] == m;
    if min {
      Framed([], core, ".min");
      assert [] + core + ".min" == m;
      assert EndsWith(m, ".min") && IsCoreName(m[..|m| - 4]);
    } else {
      assert m == core;
    }
  }

  /** The prefix, middle and suffix of a concatenation. */
  lemma Framed(pre: string, m: string, suf: string)
    ensures var f := pre + m + suf;
      f[..|pre|] == pre && f[|f| - |suf|..] == suf && f[|pre|..|f| - |suf|] == m
  {
  }

  lemma Regroup(a: string, b: string, c: string, d: string, x: char, y: char)
    ensures a + [x] + (b + [y] + c + [y] + d) == (a + [x] + b + [y] + c) + [y] + d
  {
  }

  lemma JoinThree(parts: seq<string>, c: char)
    requires |parts| == 3
    ensures Join(parts, c) == parts[0] + [c] + parts[1] + [c] + parts[2]
  {
    assert parts[1..][1..] == [parts[2]];
    assert Join(parts[1..], c) == parts[1] + [c] + parts[2];
  }

  /** The last part after splitting `a + c + b` is the last part of `b`. */
  lemma SplitLast(a: string, b: string, c: char)
    ensures var p := Split(a + [c] + b, c);
      var q := Split(b, c);
      p[|p| - 1] == q[|q| - 1]
  {
    var q := Split(b, c);
    var p := Split(a, c) + q;
    assert Split(a + [c] + b, c) == p by {
      SplitConcat(a, b, c);
    }
    assert p[|p| - 1] == q[|q| - 1];
  }

  /** The last dot-separated part of a name with a version is the last version number. */
  lemma CoreLastPart(m: string)
    requires IsCoreName(m) && !IsBareName(m)
    ensures var p := Split(m, '.');
      |p| > 1 && IsNumeral(p[|p| - 1])
  {
    var k := IndexOf(m, '-');
    var v := m[k + 1..];
    var vs := Split(v, '.');
    var front := m[..k] + ['-'] + vs[0] + ['.'] + vs[1];
    assert v == vs[0] + ['.'] + vs[1] + ['.'] + vs[2] by {
      JoinSplit(v, '.');
      JoinThree(vs, '.');
    }
    assert m == m[..k] + ['-'] + v by {
      assert m[k] == '-';
    }
    assert m == front + ['.'] + vs[2] by {
      Regroup(m[..k], vs[0], vs[1], vs[2], '-', '.');
    }
    assert '.' !in vs[2];
    SplitLastPart(front, vs[2], '.');
  }

  /** Splitting at the last separator ends with the text after it. */
  lemma SplitLastPart(front: string, last: string, c: char)
    requires c !in last
    ensures Split(front + [c] + last, c) == Split(front, c) + [last]
  {
    SplitNone(last, c);
    SplitConcat(front, last, c);
  }

  /**
   * Every file name the pattern accepts yields its name and version: the
   * index of "ccm.<core>.js" and of "ccm.<core>.min.js" is <core>, for
   * instance "dummy-3.2.1" for "ccm.dummy-3.2.1.min.js".
   */
  lemma FilenameIndex(core: string, min: bool)
    requires IsCoreName(core) && '/' !in core
    ensures GetIndex(FileNameOf(core, min)) == core
  {
    var f := FileNameOf(core, min);
    assert Contains(f, ".js") by {
      assert EndsWith(f, ".js");
      EndsWithContains(f, ".js");
    }
    assert FileName(f) == f by {
      assert '/' !in f;
      SplitNone(f, '/');
    }
    assert FileIndex(f) == core by {
      FileMatches(core, min);
      FileIndexOfCore(core, min);
    }
  }

  /** The parts of "min.js" and of "js". */
  lemma TailParts(min: bool)
    ensures Split(if min then "min.js" else "js", '.') == if min then ["min", "js"] else ["js"]
  {
    SplitNone("js", '.');
    if min {
      assert "min.js" == "min" + ['.'] + "js";
      SplitAppend("min", "js", '.');
    }
  }

  /** The dot-separated parts of a component's file name. */
  lemma FileSplit(core: string, min: bool)
    ensures Split(FileNameOf(core, min), '.') ==
      ["ccm"] + (Split(core, '.') + if min then ["min", "js"] else ["js"])
  {
    var tail := if min then "min.js" else "js";
    assert FileNameOf(core, min) == "ccm" + ['.'] + (core + ['.'] + tail) by {
      if min {
        Regroup("ccm", core, "min", "js", '.', '.');
      }
    }
    assert '.' !in "ccm";
    SplitAppend("ccm", core + ['.'] + tail, '.');
    SplitConcat(core, tail, '.');
    TailParts(min);
  }

  /** The parts of a component's file name once "ccm" and "js" are gone. */
  lemma FileParts(core: string, min: bool)
    ensures Trimmed(Split(FileNameOf(core, min), '.')) == Split(core, '.') + (if min then ["min"] else [])
  {
    var pc := Split(core, '.');
    var tp := if min then ["min", "js"] else ["js"];
    var s := Split(FileNameOf(core, min), '.');
    assert s == ["ccm"] + (pc + tp) by {
      FileSplit(core, min);
    }
    assert s[0] == "ccm" && s[1..] == pc + tp;
    assert (pc + tp)[..|pc + tp| - 1] == pc + (if min then ["min"] else []);
  }

  /** Without "ccm" and "js", the parts of a name give the name back, with or without ".min". */
  lemma PartsIndex(core: string, min: bool)
    requires IsCoreName(core)
    ensures var p := Split(core, '.') + (if min then ["min"] else []);
      Join(if |p| > 1 && p[|p| - 1] == "min" then p[..|p| - 1] else p, '.') == core
  {
    var pc := Split(core, '.');
    LastPartNotMin(core);
    KeptParts(pc, min);
    JoinSplit(core, '.');
  }

  /** Dropping a final "min" that was added gives the parts back, when they did not end in "min" already. */
  lemma KeptParts(pc: seq<string>, min: bool)
    requires |pc| >= 1 && (|pc| > 1 ==> pc[|pc| - 1] != "min")
    ensures var p := pc + (if min then ["min"] else []);
      (if |p| > 1 && p[|p| - 1] == "min" then p[..|p| - 1] else p) == pc
  {
    var p := pc + (if min then ["min"] else []);
    if min {
      assert p[..|p| - 1] == pc;
    } else {
      assert p == pc;
    }
  }

  /** The last dot-separated part of a name with several parts is a version number, never "min". */
  lemma LastPartNotMin(core: string)
    requires IsCoreName(core)
    ensures var pc := Split(core, '.');
      |pc| > 1 ==> pc[|pc| - 1] != "min"
  {
    var pc := Split(core, '.');
    if |pc| > 1 {
      if IsBareName(core) {
        SplitNone(core, '.');
      } else {
        CoreLastPart(core);
        assert "min"[0] == 'm';
      }
    }
  }

  /** The index of a file name that the pattern accepts is its name and version. */
  lemma FileIndexOfCore(core: string, min: bool)
    requires IsCoreName(core)
    ensures FileIndex(FileNameOf(core, min)) == core
  {
    FileMatches(core, min);
    FileParts(core, min);
    PartsIndex(core, min);
  }

  /** A URL's directories do not matter: only its file name does. */
  lemma UrlIndex(dir: string, f: string)
    requires '/' !in f && Contains(f, ".js")
    ensures GetIndex(dir + "/" + f) == GetIndex(f)
    ensures GetIndexAsWritten(dir + "/" + f) == GetIndexAsWritten(f)
  {
    assert FileName(dir + "/" + f) == f by {
      assert dir + "/" + f == dir + ['/'] + f;
      SplitNone(f, '/');
      SplitLast(dir, f, '/');
    }
    assert Contains(dir + "/" + f, ".js") by {
      ContainsExtended(dir + "/", f, ".js");
    }
    assert FileName(f) == f by {
      SplitNone(f, '/');
    }
  }

  /** The file "ccm.min.js" matches the pattern with the name "min", yet its index as written is ''. */
  lemma MinNamedComponentLost()
    ensures IsComponentFilename("ccm.min.js")
    ensures GetIndexAsWritten("ccm.min.js") == ""
    ensures GetIndex("ccm.min.js") == "min"
  {
    assert IsBareName("min") && '/' !in "min";
    assert "ccm.min.js" == FileNameOf("min", false);
    FileMatches("min", false);
    FilenameIndex("min", false);
    MinFileIndexAsWritten("min");
  }

  /**
   * `ccm.component` as written, given the URL of a registered component
   * named "min" (file "ccm.min.js"): it looks the component up under '' and
   * misses it, where the corrected index finds it.
   */
  lemma RegisterMinAsWritten(dir: string, components: map<string, Component>)
    requires "min" in components && "" !in components
    ensures GetIndexAsWritten(dir + "/" + FileNameOf("min", false)) !in components
    ensures GetIndex(dir + "/" + FileNameOf("min", false)) in components
  {
    var m := "min";
    assert IsBareName(m) && '/' !in m;
    var f := FileNameOf(m, false);
    assert '/' !in f && Contains(f, ".js") by {
      assert EndsWith(f, ".js");
      EndsWithContains(f, ".js");
    }
    UrlIndex(dir, f);
    FileMatches(m, false);
    FilenameIndex(m, false);
    MinFileIndexAsWritten(m);
  }

  lemma MinFileIndexAsWritten(m: string)
    requires m == "min" && IsComponentFilename(FileNameOf(m, false))
    ensures GetIndexAsWritten(FileNameOf(m, false)) == ""
  {
    var f := FileNameOf(m, false);
    assert Contains(f, ".js") by {
      assert EndsWith(f, ".js");
      EndsWithContains(f, ".js");
    }
    assert FileName(f) == f by {
      assert '/' !in f;
      SplitNone(f, '/');
    }
    var p := Trimmed(Split(f, '.'));
    assert p == ["min"] by {
      FileParts(m, false);
      SplitNone(m, '.');
    }
    assert FileIndexAsWritten(f) == Join(p[..0], '.');
  }

  /*------------------------------------------ setIndex ------------------------------------------*/

  /** A part of a version number after `parseInt`: a number or NaN; parts past the third stay text. */
  datatype VersionPart = Number(n: nat) | NaN | Text(s: string)

  /** The leading digits of a string. */
  function LeadingDigits(s: string): (d: string)
    ensures AllDigits(d) && |d| <= |s| && d == s[..|d|]
    ensures |d| < |s| ==> !IsDigit(s[|d|])
  {
    if |s| > 0 && IsDigit(s[0]) then [s[0]] + LeadingDigits(s[1..]) else ""
  }

  /** `parseInt(s)`: the value of the leading digits, NaN without any. */
  function ParseInt(s: string): VersionPart
  {
    var d := LeadingDigits(s);
    if d == "" then NaN else Number(DigitsValue(d))
  }

  /** The text a version part contributes to `version.join('.')`. */
  function PartText(p: VersionPart): string
  {
    match p
    case Number(n) => NatToString(n)
    case NaN => "NaN"
    case Text(s) => s
  }

  /** `version[i] = parseInt(version[i])` for the first three parts; missing ones become NaN. */
  function ParseVersion(parts: seq<string>): (v: seq<VersionPart>)
    ensures |v| == if |parts| < 3 then 3 else |parts|
  {
    var len := if |parts| < 3 then 3 else |parts|;
    seq(len, i requires 0 <= i < len =>
      if i < 3 then (if i < |parts| then ParseInt(parts[i]) else NaN) else Text(parts[i]))
  }

  function VersionText(v: seq<VersionPart>): string
  {
    Join(seq(|v|, i requires 0 <= i < |v| => PartText(v[i])), '.')
  }

  /** The name, version and index `setIndex` leaves on a component. */
  datatype Identity = Identity(name: Value, version: Option<seq<VersionPart>>, index: Value)

  /**
   * `setIndex()`: a declared index "name-x.y.z" is taken apart into name and
   * version; the index is then rebuilt as the name, followed by '-' and the
   * version's parts joined with '.' when there is a version.
   */
  function SetIndex(index: string, name: Value, version: Option<seq<VersionPart>>): (r: Identity)
    ensures index != "" ==> r.name == Str(Split(index, '-')[0])
    ensures r.version.Some? ==> r.index == Str(PropName(r.name) + "-" + VersionText(r.version.value))
    ensures r.version.None? ==> r.index == r.name
  {
    var parts := Split(index, '-');
    var n := if index != "" then Str(parts[0]) else name;
    var v := if index != "" && |parts| > 1 then Some(ParseVersion(Split(parts[1], '.'))) else version;
    Identity(n, v, if v.Some? then Str(PropName(n) + "-" + VersionText(v.value)) else n)
  }

  lemma ParseNumeral(s: string)
    requires IsNumeral(s)
    ensures ParseInt(s) == Number(DigitsValue(s)) && PartText(ParseInt(s)) == s
  {
    assert LeadingDigits(s) == s by {
      LeadingDigitsAll(s);
    }
    NumeralRoundTrip(s);
  }

  lemma {:induction false} LeadingDigitsAll(s: string)
    requires AllDigits(s)
    ensures LeadingDigits(s) == s
    decreases |s|
  {
    if |s| > 0 {
      LeadingDigitsAll(s[1..]);
    }
  }

  /**
   * `setIndex` keeps every index the filename pattern allows: a bare name
   * (when the component declares no separate version) or a name with a
   * three-part version. So a component declared with the index its file
   * name gives is registered under that same index.
   */
  lemma SetIndexKeepsIndex(core: string, name: Value, version: Option<seq<VersionPart>>)
    requires IsCoreName(core) && (IsBareName(core) ==> version.None?)
    ensures SetIndex(core, name, version).index == Str(core)
  {
    if IsBareName(core) {
      SplitNone(core, '-');
    } else {
      var k := IndexOf(core, '-');
      assert core == core[..k] + "-" + core[k + 1..];
      SetIndexOfVersioned(core[..k], core[k + 1..], name, version);
    }
  }

  lemma SetIndexOfVersioned(n: string, v: string, name: Value, version: Option<seq<VersionPart>>)
    requires IsBareName(n) && IsVersionText(v)
    ensures SetIndex(n + "-" + v, name, version).index == Str(n + "-" + v)
  {
    assert VersionText(ParseVersion(Split(v, '.'))) == v && '-' !in v by {
      VersionRoundTrip(v);
    }
    var index := n + "-" + v;
    assert Split(index, '-') == [n, v] by {
      VersionSplit(n, v);
    }
    SetIndexOfParts(index, n, v, name, version);
  }

  /** An index that splits at '-' into a name and a version read back unchanged is kept as it is. */
  lemma SetIndexOfParts(index: string, n: string, v: string, name: Value, version: Option<seq<VersionPart>>)
    requires index == n + "-" + v && Split(index, '-') == [n, v]
    requires VersionText(ParseVersion(Split(v, '.'))) == v
    ensures SetIndex(index, name, version).index == Str(index)
  {
    var r := SetIndex(index, name, version);
    assert r.name == Str(n) && r.version.Some?;
  }

  /** A name with a version splits at '-' into the name and the version. */
  lemma VersionSplit(n: string, v: string)
    requires '-' !in n && '-' !in v
    ensures Split(n + "-" + v, '-') == [n, v]
  {
    assert n + "-" + v == n + ['-'] + v;
    SplitAppend(n, v, '-');
    SplitNone(v, '-');
  }

  /** A version number that the filename pattern allows is read and written back unchanged. */
  lemma VersionRoundTrip(v: string)
    requires IsVersionText(v)
    ensures '-' !in v
    ensures VersionText(ParseVersion(Split(v, '.'))) == v
  {
    var vs := Split(v, '.');
    assert v == vs[0] + ['.'] + vs[1] + ['.'] + vs[2] by {
      JoinSplit(v, '.');
      JoinThree(vs, '.');
    }
    assert '-' !in v by {
      assert '-' !in vs[0] && '-' !in vs[1] && '-' !in vs[2];
    }
    assert VersionText(ParseVersion(vs)) == Join(vs, '.') by {
      NumeralsText(vs);
    }
    JoinSplit(v, '.');
  }

  /** Three numerals are parsed into numbers that print as the same numerals. */
  lemma NumeralsText(vs: seq<string>)
    requires |vs| == 3 && IsNumeral(vs[0]) && IsNumeral(vs[1]) && IsNumeral(vs[2])
    ensures var pv := ParseVersion(vs);
      seq(|pv|, i requires 0 <= i < |pv| => PartText(pv[i])) == vs
  {
    ParseNumeral(vs[0]);
    ParseNumeral(vs[1]);
    ParseNumeral(vs[2]);
  }

  /**
   * A component file placed anywhere, whose declared index is the name and
   * version its file name carries, is registered under the key that
   * `ccm.component(url)` looks up, so a second request by URL finds it.
   */
  lemma UrlFindsDeclared(dir: string, core: string, min: bool, name: Value, version: Option<seq<VersionPart>>)
    requires IsCoreName(core) && '/' !in core && (IsBareName(core) ==> version.None?)
    ensures GetIndex(dir + "/" + FileNameOf(core, min)) == Key(SetIndex(core, name, version))
  {
    FileUrlIndex(dir, core, min);
    SetIndexKeepsIndex(core, name, version);
  }

  /** The URL of a component file, in any directory, gives back the file's core name as its index. */
  lemma FileUrlIndex(dir: string, core: string, min: bool)
    requires IsCoreName(core) && '/' !in core
    ensures GetIndex(dir + "/" + FileNameOf(core, min)) == core
  {
    var f := FileNameOf(core, min);
    assert '/' !in f && Contains(f, ".js") by {
      assert EndsWith(f, ".js");
      EndsWithContains(f, ".js");
    }
    UrlIndex(dir, f);
    FilenameIndex(core, min);
  }

  /*------------------------------------------ the registry ------------------------------------------*/

  /** What a component file declares: `index`, or `name` and `version`, a default configuration, an `init` hook. */
  datatype Declaration = Declaration(index: string, name: Value, version: Option<seq<VersionPart>>, config: Value, hasInit: bool)

  /** A registered component: its identity, its instance counter and its default instance configuration. */
  datatype Component = Component(identity: Identity, instances: nat, config: Value)

  /** The key `components[component.index]` uses. */
  function Key(c: Identity): string { PropName(c.index) }

  /**
   * `finish()`: a deep copy of the registered component; a given default
   * configuration (an element node stands for `{element: node}`) is
   * integrated over a copy of the component's own, so the given one wins.
   */
  function Finished(c: Component, config: Value): (r: Component)
    ensures r.identity == c.identity && r.instances == c.instances
    ensures !Truthy(config) ==> r.config == Clone(c.config)
  {
    if !Truthy(config) then c.(config := Clone(c.config))
    else
      var given := if config.Dom? then Obj([("element", config)]) else config;
      c.(config := Integrated(Clone(given), Clone(c.config)))
  }

  /** The default configuration a new component gets in `setup()`: its own, or `{}`. */
  function SetupConfig(d: Declaration): (cfg: Value)
    ensures Truthy(cfg)
  {
    if Truthy(d.config) then d.config else Obj([])
  }

  /**
   * A default configuration given to `finish` wins over the registered one,
   * property by property; paths it does not set keep the registered values.
   */
  lemma FinishOverrides(c: Component, config: Value)
    requires IsRecord(config) && IsRecord(c.config) && NoInst(config) && NoInst(c.config)
    requires PrefixFree(PropsOf(config)) && AllSettable(PropsOf(config), c.config)
    ensures forall i | 0 <= i < |PropsOf(config)| && !PropsOf(config)[i].1.Undef? ::
      DeepGet(Finished(c, config).config, PropsOf(config)[i].0) == PropsOf(config)[i].1
    ensures forall q | Untouched(PropsOf(config), PathOf(q)) :: DeepGet(Finished(c, config).config, q) == DeepGet(c.config, q)
  {
    PriorityWins(config, c.config);
  }

  class Components {
    /** `components`: registered components by index. */
    var components: map<string, Component>
    /** The components whose `init` hook ran, in order. */
    var initCalls: seq<string>

    constructor ()
      ensures components == map[] && initCalls == []
    {
      components := map[];
      initCalls := [];
    }

    /** `finish()` on the component registered under `key`. */
    method Finish(key: string, config: Value) returns (c: Component)
      requires key in components
      ensures c == Finished(components[key], config)
    {
      var registered := components[key];
      c := registered.(config := Clone(registered.config));
      if Truthy(config) {
        var given := if config.Dom? then Obj([("element", config)]) else config;
        var merged := Integrate(Clone(given), c.config);
        c := c.(config := merged);
      }
    }

    /**
     * `ccm.component(component, config)` with a component object: the index
     * is set; a component seen for the first time is registered with its
     * instance counter at 0 and a default configuration, and its `init` runs
     * once; every call ends in `finish`. A function in place of `config` is
     * the callback.
     */
    method Register(d: Declaration, config: Value) returns (c: Component)
      modifies this
      ensures var id := SetIndex(d.index, d.name, d.version);
        var cfg := if config.Fn? then Undef else config;
        if Key(id) in old(components) then
          components == old(components) && initCalls == old(initCalls) &&
          c == Finished(old(components)[Key(id)], cfg)
        else
          components == old(components)[Key(id) := Component(id, 0, SetupConfig(d))] &&
          initCalls == old(initCalls) + (if d.hasInit then [Key(id)] else []) &&
          c == Finished(components[Key(id)], cfg)
    {
      var cfg := if config.Fn? then Undef else config;
      var id := SetIndex(d.index, d.name, d.version);
      var key := Key(id);
      if key !in components {
        components := components[key := Component(id, 0, SetupConfig(d))];
        if d.hasInit {
          initCalls := initCalls + [key];
        }
      }
      c := Finish(key, cfg);
    }

    /**
     * `ccm.component(url, config)`: a component already registered under the
     * URL's index is finished at once; otherwise its file has to be loaded
     * first (None).
     */
    method RegisterByUrl(url: string, config: Value) returns (c: Option<Component>)
      ensures var cfg := if config.Fn? then Undef else config;
        GetIndex(url) in components ==> c == Some(Finished(components[GetIndex(url)], cfg))
      ensures GetIndex(url) !in components ==> c == None
    {
      var cfg := if config.Fn? then Undef else config;
      var key := GetIndex(url);
      if key in components {
        var r := Finish(key, cfg);
        c := Some(r);
      } else {
        c := None;
      }
    }

    /** `components[index].instances++`: the new count is the id of the instance being created. */
    method CountInstance(key: string) returns (id: nat)
      requires key in components
      modifies this
      ensures id == old(components[key].instances) + 1
      ensures components == old(components)[key := old(components[key]).(instances := id)]
      ensures initCalls == old(initCalls)
    {
      id := components[key].instances + 1;
      components := components[key := components[key].(instances := id)];
    }
  }
}
