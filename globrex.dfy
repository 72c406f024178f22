/** `globrex` of the std `path` module: the character-by-character translator
    from a glob (with optional extglob, globstar and brace groups) to the
    source text of a regular expression, and, for file paths, to a path
    pattern and one pattern per path segment.  Patterns are kept as text;
    building `RegExp` objects from them is not modelled. */
module Globrex {
  import opened Wrappers

  // ------------------------------------------------------------- options

  /** The options of `globrex`, plus the platform's separator style. */
  datatype Options = Options(extended: bool, globstar: bool, strict: bool, filepath: bool,
                             flags: string, windows: bool)

  /** `flags.includes("g")`. */
  predicate Global(o: Options) {
    'g' in o.flags
  }

  // ----------------------------------------------------------- constants

  /** `SEP`: the pattern of one path separator. */
  function Sep(windows: bool): string {
    if windows then "(?:\\\\|\\/)" else "\\/"
  }

  /** `SEP_ESC`: the separator as it appears inside a character class. */
  function SepEsc(windows: bool): string {
    if windows then "\\\\" else "/"
  }

  /** `SEP_RAW`: the separator character itself. */
  function SepRaw(windows: bool): char {
    if windows then '\\' else '/'
  }

  function Globstar(windows: bool): string {
    "(?:(?:[^" + SepEsc(windows) + "/]*(?:" + SepEsc(windows) + "|/|$))*)"
  }

  function Wildcard(windows: bool): string {
    "(?:[^" + SepEsc(windows) + "/]*)"
  }

  function GlobstarSegment(windows: bool): string {
    "((?:[^" + SepEsc(windows) + "/]*(?:" + SepEsc(windows) + "|/|$))*)"
  }

  function WildcardSegment(windows: bool): string {
    "(?:[^" + SepEsc(windows) + "/]*)"
  }

  /** A character `sepPattern` matches on its own. */
  predicate IsSepChar(o: Options, c: char) {
    c == '/' || (o.windows && c == '\\')
  }

  /** `str.match(sepPattern)`: separators only, and just one when strict. */
  predicate MatchesSep(o: Options, str: string) {
    |str| >= 1 && (forall k :: 0 <= k < |str| ==> IsSepChar(o, str[k])) && (o.strict ==> |str| == 1)
  }

  /** JavaScript's `glob[k]`: `undefined` outside the string. */
  function At(glob: string, k: int): Option<char> {
    if 0 <= k < |glob| then Some(glob[k]) else None
  }

  // ------------------------------------------------------------- `add`

  /** Which of the two outputs `add` writes to (`only`). */
  datatype Only = Both | RegexOnly | PathOnly

  /** What `globrex` accumulates: the regex text, the current path segment,
      the path regex text and the finished segment patterns. */
  datatype Out = Out(regex: string, segment: string, pathRegex: string, segments: seq<string>)

  /** `add(str, { split, last, only })`. */
  function Add(o: Options, out: Out, str: string, split: bool, last: bool, only: Only): (r: Out)
    ensures r.regex == out.regex + (if only != PathOnly then str else "")
    ensures !o.filepath || only == RegexOnly ==>
      r.segment == out.segment && r.pathRegex == out.pathRegex && r.segments == out.segments
    ensures o.filepath && only != RegexOnly ==>
      r.pathRegex == out.pathRegex + (if MatchesSep(o, str) then Sep(o.windows) else str)
  {
    var regex := if only != PathOnly then out.regex + str else out.regex;
    if o.filepath && only != RegexOnly then
      var pathRegex := out.pathRegex + (if MatchesSep(o, str) then Sep(o.windows) else str);
      if split then
        var segment := if last then out.segment + str else out.segment;
        var segments := if segment != "" then out.segments + [Anchor(o, segment)] else out.segments;
        Out(regex, "", pathRegex, segments)
      else Out(regex, out.segment + str, pathRegex, out.segments)
    else Out(regex, out.segment, out.pathRegex, out.segments)
  }

  /** `add(str)` with the default options. */
  function Emit(o: Options, out: Out, str: string): (r: Out)
    ensures r.regex == out.regex + str
  {
    Add(o, out, str, false, false, Both)
  }

  // ------------------------------------------------------ the scanning loop

  /** The loop's variables: the outputs, `inGroup`, `inRange`, the extglob
      stack `ext` (top last) and the index `i`. */
  datatype State = State(out: Out, inGroup: bool, inRange: bool, ext: seq<char>, i: nat)

  /** The characters escaped wherever they appear: `\\ $ ^ . =`. */
  predicate IsEscaped(c: char) {
    c == '\\' || c == '$' || c == '^' || c == '.' || c == '='
  }

  /** What the `)` closing an extglob appends after it. */
  function ExtCloser(o: Options, t: char): string {
    if t == '@' then "{1}" else if t == '!' then Wildcard(o.windows) else [t]
  }

  /** The last index of the run of `*` that starts at `i`. */
  function StarRunEnd(glob: string, i: nat): (e: nat)
    requires i < |glob|
    ensures i <= e < |glob| && At(glob, e + 1) != Some('*')
    ensures forall k :: i < k <= e ==> glob[k] == '*'
    decreases |glob| - i
  {
    if i + 1 < |glob| && glob[i + 1] == '*' then StarRunEnd(glob, i + 1) else i
  }

  /** Where the scan for the `:` closing a POSIX class name, started at the
      opening `:` at `i`, stops: at the next `:`, or at the end of the glob. */
  function ClassEnd(glob: string, i: nat): (k: nat)
    requires i < |glob|
    ensures i < k <= |glob|
    ensures k < |glob| ==> glob[k] == ':'
    ensures forall j :: i < j < k ==> glob[j] != ':'
    decreases |glob| - i
  {
    if i + 1 < |glob| && glob[i + 1] != ':' then ClassEnd(glob, i + 1) else i + 1
  }

  /** The pattern a POSIX class name stands for; other names add nothing. */
  function ClassPattern(value: string): string {
    if value == "alnum" then "(?:\\w|\\d)"
    else if value == "space" then "\\s"
    else if value == "digit" then "\\d"
    else ""
  }

  /** The characters of extglob syntax: `( ) | + @ ! ?`. */
  predicate IsExtglobChar(c: char) {
    c == '(' || c == ')' || c == '|' || c == '+' || c == '@' || c == '!' || c == '?'
  }

  /** The characters of ranges and brace groups: `[ ] { } ,`. */
  predicate IsBracketChar(c: char) {
    c == '[' || c == ']' || c == '{' || c == '}' || c == ','
  }

  /** One pass of the `for` loop's body for the character at `s.i`,
      including the loop's own `i++`.  The source tests the escaped
      characters and the separators first; neither meets the three groups
      dispatched here, so the order of the tests does not matter. */
  function Step(o: Options, glob: string, s: State): (t: State)
    requires s.i < |glob|
    ensures t.i > s.i
  {
    var c := glob[s.i];
    if IsExtglobChar(c) then ExtglobStep(o, glob, s)
    else if IsBracketChar(c) then BracketStep(o, glob, s)
    else if c == '*' then StarStep(o, glob, s)
    else PlainStep(o, glob, s)
  }

  /** The body for every other character: the escaped ones, the separators
      (followed by `?` before another separator unless strict), and the
      characters copied as they are. */
  function PlainStep(o: Options, glob: string, s: State): (t: State)
    requires s.i < |glob|
    ensures t.i == s.i + 1
  {
    var c := glob[s.i];
    var n := At(glob, s.i + 1);
    if IsEscaped(c) then s.(out := Emit(o, s.out, ['\\', c]), i := s.i + 1)
    else if IsSepChar(o, c) then
      var out1 := Add(o, s.out, Sep(o.windows), true, false, Both);
      var q := n.Some? && IsSepChar(o, n.value) && !o.strict;
      s.(out := if q then out1.(regex := out1.regex + "?") else out1, i := s.i + 1)
    else s.(out := Emit(o, s.out, [c]), i := s.i + 1)
  }

  /** The body for `( ) | + @ ! ?`: groups of an extglob, its alternatives
      and its openers, which push their character onto `ext`. */
  function ExtglobStep(o: Options, glob: string, s: State): (t: State)
    requires s.i < |glob| && IsExtglobChar(glob[s.i])
    ensures t.i > s.i
  {
    var c := glob[s.i];
    var n := At(glob, s.i + 1);
    var out := s.out;
    var next := s.i + 1;
    if c == '(' then
      s.(out := Emit(o, out, if s.ext != [] then "(?:" else "\\("), i := next)
    else if c == ')' then
      if s.ext != [] then
        var t := s.ext[|s.ext| - 1];
        s.(out := Emit(o, Emit(o, out, ")"), ExtCloser(o, t)), ext := s.ext[..|s.ext| - 1], i := next)
      else s.(out := Emit(o, out, "\\)"), i := next)
    else if c == '|' then
      s.(out := Emit(o, out, if s.ext != [] then "|" else "\\|"), i := next)
    else if c == '+' then
      if n == Some('(') && o.extended then s.(ext := s.ext + [c], i := next)
      else s.(out := Emit(o, out, "\\+"), i := next)
    else if c == '@' then
      if o.extended && n == Some('(') then s.(ext := s.ext + [c], i := next)
      else s.(out := Emit(o, out, [c]), i := next)
    else if c == '!' then
      if o.extended && s.inRange then s.(out := Emit(o, out, "^"), i := next)
      else if o.extended && n == Some('(') then
        s.(out := Emit(o, out, "(?!"), ext := s.ext + [c], i := s.i + 2)
      else s.(out := Emit(o, out, "\\!"), i := next)
    else
      if o.extended && n == Some('(') then s.(ext := s.ext + [c], i := next)
      else if o.extended then s.(out := Emit(o, out, "."), i := next)
      else s.(out := Emit(o, out, "\\?"), i := next)
  }

  /** The body for `[ ] { } ,`: ranges with their POSIX classes, and brace
      groups with their alternatives. */
  function BracketStep(o: Options, glob: string, s: State): (t: State)
    requires s.i < |glob| && IsBracketChar(glob[s.i])
    ensures t.i > s.i
  {
    var c := glob[s.i];
    var n := At(glob, s.i + 1);
    var out := s.out;
    var next := s.i + 1;
    if c == '[' then
      if s.inRange && n == Some(':') then
        var k := ClassEnd(glob, s.i + 1);
        s.(out := Emit(o, out, ClassPattern(glob[s.i + 2..k])), i := k + 2)
      else if o.extended then s.(out := Emit(o, out, "["), inRange := true, i := next)
      else s.(out := Emit(o, out, "\\["), i := next)
    else if c == ']' then
      if o.extended then s.(out := Emit(o, out, "]"), inRange := false, i := next)
      else s.(out := Emit(o, out, "\\]"), i := next)
    else if c == '{' then
      if o.extended then s.(out := Emit(o, out, "(?:"), inGroup := true, i := next)
      else s.(out := Emit(o, out, "\\{"), i := next)
    else if c == '}' then
      if o.extended then s.(out := Emit(o, out, ")"), inGroup := false, i := next)
      else s.(out := Emit(o, out, "\\}"), i := next)
    else
      s.(out := Emit(o, out, if s.inGroup then "|" else "\\,"), i := next)
  }

  /** The body for `*`: an extglob opener, or a whole run of stars. */
  function StarStep(o: Options, glob: string, s: State): (t: State)
    requires s.i < |glob| && glob[s.i] == '*'
    ensures t.i > s.i
  {
    if At(glob, s.i + 1) == Some('(') && o.extended then s.(ext := s.ext + ['*'], i := s.i + 1)
    else
      var e := StarRunEnd(glob, s.i);
      s.(out := StarOut(o, glob, s.i, e, s.out), i := if StarIsGlobstar(o, glob, s.i, e) then e + 2 else e + 1)
  }

  /** Whether the run of `*` from `i` to `e` is a globstar: two or more stars,
      with a separator or the edge of the glob on both sides. */
  predicate StarIsGlobstar(o: Options, glob: string, i: nat, e: nat) {
    var prev := At(glob, i - 1);
    var after := At(glob, e + 1);
    && o.globstar
    && e > i
    && (prev.None? || prev == Some(SepRaw(o.windows)) || prev == Some('/'))
    && (after.None? || after == Some(SepRaw(o.windows)) || after == Some('/'))
  }

  /** What a run of `*` adds. */
  function StarOut(o: Options, glob: string, i: nat, e: nat, out: Out): Out {
    if !o.globstar then Emit(o, out, ".*")
    else if StarIsGlobstar(o, glob, i, e) then
      Add(o, Add(o, out, Globstar(o.windows), false, false, RegexOnly),
          GlobstarSegment(o.windows), true, true, PathOnly)
    else
      Add(o, Add(o, out, Wildcard(o.windows), false, false, RegexOnly),
          WildcardSegment(o.windows), false, false, PathOnly)
  }

  /** The loop run from state `s` to the end of the glob. */
  function Run(o: Options, glob: string, s: State): State
    decreases |glob| - s.i
  {
    if s.i >= |glob| then s else Run(o, glob, Step(o, glob, s))
  }

  const Start: State := State(Out("", "", "", []), false, false, [], 0)

  /** The patterns of `path`, when `filepath` is set. */
  datatype PathPatterns = PathPatterns(regex: string, segments: seq<string>, globstar: string)

  /** What `globrex` returns, as pattern text. */
  datatype Compiled = Compiled(regex: string, path: Option<PathPatterns>)

  /** After the loop: anchor everything unless the flags hold `g`, and
      collect the path patterns, the last segment included. */
  function Finish(o: Options, out: Out): (r: Compiled)
    ensures r.path.Some? <==> o.filepath
  {
    Compiled(Anchor(o, out.regex),
             if o.filepath then Some(PathPatterns(Anchor(o, out.pathRegex), out.segments + [Anchor(o, out.segment)],
                                                  Anchor(o, GlobstarSegment(o.windows))))
             else None)
  }

  /** The text between `^` and `$`, unless the flags hold `g`. */
  function Anchor(o: Options, text: string): (r: string)
    ensures Global(o) ==> r == text
    ensures !Global(o) ==> |r| == |text| + 2 && r[0] == '^' && r[|r| - 1] == '$' && r[1..|r| - 1] == text
  {
    if Global(o) then text else "^" + text + "$"
  }

  /** `globrex(glob, options)`. */
  function Compile(o: Options, glob: string): Compiled {
    Finish(o, Run(o, glob, Start).out)
  }

  // ---------------------------------------------------- the imperative loop

  /** `globrex`: one `for` loop whose index the body also advances, with the
      inner scans over a run of stars and over a POSIX class name.  The class
      name scan is the bounded `ScanClass`, which stops at the end of the
      glob where the unbounded scan `ScanAsWritten` runs on. */
  method Globrex(glob: string, o: Options) returns (r: Compiled)
    ensures r == Compile(o, glob)
  {
    var out := Out("", "", "", []);
    var inGroup := false;
    var inRange := false;
    var ext: seq<char> := [];
    var i := 0;
    while i < |glob|
      invariant Run(o, glob, State(out, inGroup, inRange, ext, i)) == Run(o, glob, Start)
      decreases |glob| - i
    {
      ghost var s := State(out, inGroup, inRange, ext, i);
      var c := glob[i];
      if IsExtglobChar(c) {
        out, ext, i := ExtglobChar(o, glob, out, inGroup, inRange, ext, i);
      } else if IsBracketChar(c) {
        out, inGroup, inRange, i := BracketChar(o, glob, out, inGroup, inRange, ext, i);
      } else if c == '*' {
        out, ext, i := Stars(o, glob, out, inGroup, inRange, ext, i);
      } else {
        out := PlainChar(o, glob, out, inGroup, inRange, ext, i);
      }
      i := i + 1;
      assert State(out, inGroup, inRange, ext, i) == Step(o, glob, s);
    }
    r := Finish(o, out);
  }

  /** The branches for escaped characters, separators and plain ones. */
  method PlainChar(o: Options, glob: string, out0: Out, inGroup: bool, inRange: bool, ext: seq<char>, i: nat)
    returns (out: Out)
    requires i < |glob|
    ensures State(out, inGroup, inRange, ext, i + 1) == PlainStep(o, glob, State(out0, inGroup, inRange, ext, i))
  {
    out := out0;
    var c := glob[i];
    var n := At(glob, i + 1);
    if IsEscaped(c) {
      out := Emit(o, out, ['\\', c]);
    } else if IsSepChar(o, c) {
      out := Add(o, out, Sep(o.windows), true, false, Both);
      if n.Some? && IsSepChar(o, n.value) && !o.strict {
        out := out.(regex := out.regex + "?");
      }
    } else {
      out := Emit(o, out, [c]);
    }
  }

  /** The branches for `( ) | + @ ! ?`; `i` is left on the last character
      they consume. */
  method ExtglobChar(o: Options, glob: string, out0: Out, inGroup: bool, inRange: bool, ext0: seq<char>, i0: nat)
    returns (out: Out, ext: seq<char>, i: nat)
    requires i0 < |glob| && IsExtglobChar(glob[i0])
    ensures State(out, inGroup, inRange, ext, i + 1) == ExtglobStep(o, glob, State(out0, inGroup, inRange, ext0, i0))
  {
    out, ext, i := out0, ext0, i0;
    var c := glob[i];
    var n := At(glob, i + 1);
    if c == '(' {
      out := Emit(o, out, if ext != [] then "(?:" else "\\(");
    } else if c == ')' {
      if ext != [] {
        out := Emit(o, out, ")");
        var t := ext[|ext| - 1];
        ext := ext[..|ext| - 1];
        out := Emit(o, out, ExtCloser(o, t));
      } else {
        out := Emit(o, out, "\\)");
      }
    } else if c == '|' {
      out := Emit(o, out, if ext != [] then "|" else "\\|");
    } else if c == '+' {
      if n == Some('(') && o.extended {
        ext := ext + [c];
      } else {
        out := Emit(o, out, "\\+");
      }
    } else if c == '@' {
      if o.extended && n == Some('(') {
        ext := ext + [c];
      } else {
        out := Emit(o, out, [c]);
      }
    } else if c == '!' {
      if o.extended && inRange {
        out := Emit(o, out, "^");
      } else if o.extended && n == Some('(') {
        ext := ext + [c];
        out := Emit(o, out, "(?!");
        i := i + 1;
      } else {
        out := Emit(o, out, "\\!");
      }
    } else {
      if o.extended && n == Some('(') {
        ext := ext + [c];
      } else if o.extended {
        out := Emit(o, out, ".");
      } else {
        out := Emit(o, out, "\\?");
      }
    }
  }

  /** The branches for `[ ] { } ,`; `i` is left on the last character they
      consume. */
  method BracketChar(o: Options, glob: string, out0: Out, inGroup0: bool, inRange0: bool, ext: seq<char>, i0: nat)
    returns (out: Out, inGroup: bool, inRange: bool, i: nat)
    requires i0 < |glob| && IsBracketChar(glob[i0])
    ensures State(out, inGroup, inRange, ext, i + 1) == BracketStep(o, glob, State(out0, inGroup0, inRange0, ext, i0))
  {
    out, inGroup, inRange, i := out0, inGroup0, inRange0, i0;
    var c := glob[i];
    var n := At(glob, i + 1);
    if c == '[' {
      if inRange && n == Some(':') {
        i := i + 1;
        var value: string;
        value, i := ScanClass(glob, i);
        out := Emit(o, out, ClassPattern(value));
        i := i + 1;
      } else if o.extended {
        inRange := true;
        out := Emit(o, out, "[");
      } else {
        out := Emit(o, out, "\\[");
      }
    } else if c == ']' {
      if o.extended {
        inRange := false;
        out := Emit(o, out, "]");
      } else {
        out := Emit(o, out, "\\]");
      }
    } else if c == '{' {
      if o.extended {
        inGroup := true;
        out := Emit(o, out, "(?:");
      } else {
        out := Emit(o, out, "\\{");
      }
    } else if c == '}' {
      if o.extended {
        inGroup := false;
        out := Emit(o, out, ")");
      } else {
        out := Emit(o, out, "\\}");
      }
    } else {
      out := Emit(o, out, if inGroup then "|" else "\\,");
    }
  }

  /** The branch for `*`; `i` is left on the last character it consumes. */
  method Stars(o: Options, glob: string, out0: Out, inGroup: bool, inRange: bool, ext0: seq<char>, i0: nat)
    returns (out: Out, ext: seq<char>, i: nat)
    requires i0 < |glob| && glob[i0] == '*'
    ensures State(out, inGroup, inRange, ext, i + 1) == StarStep(o, glob, State(out0, inGroup, inRange, ext0, i0))
  {
    out, ext, i := out0, ext0, i0;
    if At(glob, i + 1) == Some('(') && o.extended {
      ext := ext + ['*'];
    } else {
      i := SkipStars(glob, i);
      out := StarOut(o, glob, i0, i, out);
      if StarIsGlobstar(o, glob, i0, i) {
        i := i + 1;
      }
    }
  }

  /** `while (glob[i + 1] === "*") { starCount++; i++; }`. */
  method SkipStars(glob: string, i0: nat) returns (i: nat)
    requires i0 < |glob|
    ensures i == StarRunEnd(glob, i0)
  {
    i := i0;
    while i + 1 < |glob| && glob[i + 1] == '*'
      invariant i0 <= i < |glob| && StarRunEnd(glob, i) == StarRunEnd(glob, i0)
      decreases |glob| - i
    {
      i := i + 1;
    }
  }

  /** The POSIX class name scan, stopping at the end of the glob when no
      closing `:` follows; `i` ends on the closing `:` (or at the end). */
  method ScanClass(glob: string, i0: nat) returns (value: string, i: nat)
    requires i0 < |glob|
    ensures i == ClassEnd(glob, i0) && value == glob[i0 + 1..i]
  {
    i := i0;
    value := "";
    while i + 1 < |glob| && glob[i + 1] != ':'
      invariant i0 <= i < |glob| && ClassEnd(glob, i) == ClassEnd(glob, i0)
      invariant value == glob[i0 + 1..i + 1]
      decreases |glob| - i
    {
      i := i + 1;
      value := value + [glob[i]];
    }
    i := i + 1;
  }

  // ------------------------------------------------------------ properties

  /** `\ $ ^ . =` are always emitted behind a backslash. */
  lemma EscapedCharacter(o: Options, glob: string, s: State)
    requires s.i < |glob| && IsEscaped(glob[s.i])
    ensures Step(o, glob, s).out.regex == s.out.regex + ['\\', glob[s.i]]
    ensures Step(o, glob, s).i == s.i + 1
  {
  }

  /** A separator emits `SEP`, followed by `?` when the next character is a
      separator too and the options are not strict; for file paths it also
      closes the current segment, which is kept (anchored unless global) when
      it is not empty. */
  lemma SeparatorCharacter(o: Options, glob: string, s: State)
    requires s.i < |glob| && IsSepChar(o, glob[s.i]) && !IsEscaped(glob[s.i])
    ensures var t := Step(o, glob, s);
      var q := At(glob, s.i + 1).Some? && IsSepChar(o, glob[s.i + 1]) && !o.strict;
      && t.out.regex == s.out.regex + Sep(o.windows) + (if q then "?" else "")
      && t.i == s.i + 1 && t.ext == s.ext && t.inRange == s.inRange && t.inGroup == s.inGroup
      && (o.filepath ==>
            && t.out.segment == ""
            && t.out.segments == s.out.segments +
                 (if s.out.segment == "" then [] else [Anchor(o, s.out.segment)]))
  {
    var c := glob[s.i];
    assert !IsExtglobChar(c) && !IsBracketChar(c) && c != '*';
  }

  /** With globstar off, a run of stars (not opening an extglob) is consumed
      whole and emits exactly one `.*`. */
  lemma StarRunWithoutGlobstar(o: Options, glob: string, s: State)
    requires s.i < |glob| && glob[s.i] == '*' && !o.globstar
    requires !(o.extended && At(glob, s.i + 1) == Some('('))
    ensures var t := Step(o, glob, s);
      && t.out.regex == s.out.regex + ".*"
      && (forall k :: s.i <= k < t.i ==> glob[k] == '*')
      && At(glob, t.i) != Some('*')
  {
  }

  /** With globstar on, a run of two or more stars with a separator or the
      edge of the glob on both sides (`StarIsGlobstar`) emits `GLOBSTAR` and
      consumes the character after the run, which `StarRunEnd` shows to be
      whole. */
  lemma GlobstarRun(o: Options, glob: string, s: State)
    requires s.i < |glob| && glob[s.i] == '*' && !(o.extended && At(glob, s.i + 1) == Some('('))
    requires StarIsGlobstar(o, glob, s.i, StarRunEnd(glob, s.i))
    ensures Step(o, glob, s).out.regex == s.out.regex + Globstar(o.windows)
    ensures Step(o, glob, s).i == StarRunEnd(glob, s.i) + 2
  {
    assert Step(o, glob, s) == StarStep(o, glob, s);
  }

  /** With globstar on, any other run of stars emits `WILDCARD`. */
  lemma WildcardRun(o: Options, glob: string, s: State)
    requires s.i < |glob| && glob[s.i] == '*' && !(o.extended && At(glob, s.i + 1) == Some('('))
    requires o.globstar && !StarIsGlobstar(o, glob, s.i, StarRunEnd(glob, s.i))
    ensures Step(o, glob, s).out.regex == s.out.regex + Wildcard(o.windows)
    ensures Step(o, glob, s).i == StarRunEnd(glob, s.i) + 1
  {
    assert Step(o, glob, s) == StarStep(o, glob, s);
  }

  /** On the path, the globstar run emits `GLOBSTAR_SEGMENT` and closes the
      segment with it; any other run adds `WILDCARD_SEGMENT` to the segment. */
  lemma StarRunOnPath(o: Options, glob: string, s: State)
    requires s.i < |glob| && glob[s.i] == '*' && o.globstar && o.filepath
    requires !(o.extended && At(glob, s.i + 1) == Some('('))
    ensures var t := Step(o, glob, s); var e := StarRunEnd(glob, s.i);
      StarIsGlobstar(o, glob, s.i, e) ==>
        && t.out.pathRegex == s.out.pathRegex + GlobstarSegment(o.windows)
        && t.out.segment == ""
        && t.out.segments == s.out.segments + [Anchor(o, s.out.segment + GlobstarSegment(o.windows))]
    ensures var t := Step(o, glob, s); var e := StarRunEnd(glob, s.i);
      !StarIsGlobstar(o, glob, s.i, e) ==>
        && t.out.pathRegex == s.out.pathRegex + WildcardSegment(o.windows)
        && t.out.segment == s.out.segment + WildcardSegment(o.windows)
        && t.out.segments == s.out.segments
  {
    assert Step(o, glob, s) == StarStep(o, glob, s);
    var gs := GlobstarSegment(o.windows);
    var ws := WildcardSegment(o.windows);
    assert !MatchesSep(o, gs) by {
      assert gs[0] == '(' && !IsSepChar(o, gs[0]);
    }
    assert !MatchesSep(o, ws) by {
      assert ws[0] == '(' && !IsSepChar(o, ws[0]);
    }
    assert s.out.segment + gs != "" by {
      assert |gs| > 0;
    }
  }

  /** In extended mode `{` opens a group as `(?:`, `}` closes it as `)`,
      and `,` is `|` inside a group and escaped outside one. */
  lemma BraceCharacter(o: Options, glob: string, s: State)
    requires s.i < |glob| && o.extended
    requires glob[s.i] == '{' || glob[s.i] == '}' || glob[s.i] == ','
    ensures var t := Step(o, glob, s);
      && t.i == s.i + 1 && t.ext == s.ext
      && (glob[s.i] == '{' ==> t.out.regex == s.out.regex + "(?:" && t.inGroup)
      && (glob[s.i] == '}' ==> t.out.regex == s.out.regex + ")" && !t.inGroup)
      && (glob[s.i] == ',' ==> t.out.regex == s.out.regex + (if s.inGroup then "|" else "\\,") && t.inGroup == s.inGroup)
  {
  }

  /** In extended mode `@(`, `*(`, `+(` and `?(` push their operator onto
      the stack and open a group `(?:`, over two passes of the loop. */
  lemma ExtglobOpens(o: Options, glob: string, s: State)
    requires o.extended && s.i + 1 < |glob| && glob[s.i + 1] == '('
    requires glob[s.i] == '@' || glob[s.i] == '*' || glob[s.i] == '+' || glob[s.i] == '?'
    ensures Step(o, glob, s).i == s.i + 1
    ensures var t := Step(o, glob, Step(o, glob, s));
      t.ext == s.ext + [glob[s.i]] && t.out.regex == s.out.regex + "(?:" && t.i == s.i + 2
  {
  }

  /** In extended mode `!(` pushes `!` and opens a negative lookahead `(?!`,
      consuming the `(` as well; inside a range `!` is a negation `^`. */
  lemma NegatedExtglobOpens(o: Options, glob: string, s: State)
    requires o.extended && s.i < |glob| && glob[s.i] == '!'
    ensures var t := Step(o, glob, s);
      && (s.inRange ==> t.out.regex == s.out.regex + "^" && t.ext == s.ext && t.i == s.i + 1)
      && (!s.inRange && At(glob, s.i + 1) == Some('(') ==>
            t.out.regex == s.out.regex + "(?!" && t.ext == s.ext + ['!'] && t.i == s.i + 2)
  {
  }

  /** A `)` while an extglob is open pops its operator and emits `)` then
      `{1}` for `@`, `WILDCARD` for `!`, and the operator itself otherwise. */
  lemma ExtglobCloses(o: Options, glob: string, s: State)
    requires s.i < |glob| && glob[s.i] == ')' && s.ext != []
    ensures var t := Step(o, glob, s);
      var op := s.ext[|s.ext| - 1];
      && t.ext == s.ext[..|s.ext| - 1] && t.i == s.i + 1
      && t.out.regex == s.out.regex + ")" +
           (if op == '@' then "{1}" else if op == '!' then Wildcard(o.windows) else [op])
  {
  }

  /** The characters escaped in non-extended mode. */
  predicate IsExtendedSyntax(c: char) {
    c == '?' || c == '[' || c == ']' || c == '(' || c == ')' || c == '|' || c == '+' || c == '!'
    || c == '{' || c == '}'
  }

  /** Outside extended mode no extglob is open, no range and no group. */
  ghost predicate Consistent(o: Options, s: State) {
    !o.extended ==> s.ext == [] && !s.inRange && !s.inGroup
  }

  lemma StepConsistent(o: Options, glob: string, s: State)
    requires s.i < |glob| && Consistent(o, s)
    ensures Consistent(o, Step(o, glob, s))
  {
  }

  /** Every state the loop reaches from a consistent one is consistent. */
  lemma {:induction false} RunConsistent(o: Options, glob: string, s: State)
    requires Consistent(o, s)
    ensures Consistent(o, Run(o, glob, s))
    decreases |glob| - s.i
  {
    if s.i < |glob| {
      StepConsistent(o, glob, s);
      RunConsistent(o, glob, Step(o, glob, s));
    }
  }

  /** In non-extended mode `? [ ] ( ) | + ! { }` are emitted escaped, and
      `@` and `,` unchanged or escaped as outside any group. */
  lemma NonExtendedCharacter(o: Options, glob: string, s: State)
    requires !o.extended && Consistent(o, s) && s.i < |glob|
    ensures var c := glob[s.i]; var t := Step(o, glob, s);
      && (IsExtendedSyntax(c) ==> t.out.regex == s.out.regex + ['\\', c] && t.i == s.i + 1)
      && (c == ',' ==> t.out.regex == s.out.regex + "\\," && t.i == s.i + 1)
      && (c == '@' ==> t.out.regex == s.out.regex + "@" && t.i == s.i + 1)
  {
  }

  /** A character no rule handles. */
  predicate IsOrdinary(o: Options, c: char) {
    !IsEscaped(c) && !IsSepChar(o, c) && !IsExtglobChar(c) && !IsBracketChar(c) && c != '*'
  }

  /** Any character no rule handles is appended unchanged. */
  lemma OrdinaryCharacter(o: Options, glob: string, s: State)
    requires s.i < |glob| && IsOrdinary(o, glob[s.i])
    ensures Step(o, glob, s).out.regex == s.out.regex + [glob[s.i]]
    ensures Step(o, glob, s).i == s.i + 1
  {
  }

  /** The regex text of a glob without glob syntax: each character as it is,
      with `\ $ ^ . =` behind a backslash. */
  function Quote(text: string): (r: string)
    ensures |r| >= |text|
  {
    if text == [] then ""
    else (if IsEscaped(text[0]) then ['\\', text[0]] else [text[0]]) + Quote(text[1..])
  }

  /** From any state, the rest of a glob without glob syntax appends its
      quoted text to the regex. */
  lemma {:induction false} LiteralRun(o: Options, glob: string, s: State)
    requires s.i <= |glob|
    requires forall k :: s.i <= k < |glob| ==> IsOrdinary(o, glob[k]) || IsEscaped(glob[k])
    ensures Run(o, glob, s).out.regex == s.out.regex + Quote(glob[s.i..])
    decreases |glob| - s.i
  {
    if s.i < |glob| {
      var t := Step(o, glob, s);
      if IsEscaped(glob[s.i]) {
        EscapedCharacter(o, glob, s);
      } else {
        OrdinaryCharacter(o, glob, s);
      }
      LiteralRun(o, glob, t);
      assert glob[s.i..][1..] == glob[t.i..];
    }
  }

  /** A glob without glob syntax compiles to its quoted text, anchored
      unless the flags hold `g`. */
  lemma LiteralGlob(o: Options, glob: string)
    requires forall k :: 0 <= k < |glob| ==> IsOrdinary(o, glob[k]) || IsEscaped(glob[k])
    ensures Compile(o, glob).regex == if Global(o) then Quote(glob) else "^" + Quote(glob) + "$"
  {
    LiteralRun(o, glob, Start);
    assert glob[0..] == glob;
    var r := Run(o, glob, Start).out.regex;
    assert r == Quote(glob) by {
      assert Start.out.regex == "";
      assert "" + Quote(glob) == Quote(glob);
    }
    assert Compile(o, glob).regex == Anchor(o, r);
  }

  // ------------------------------------- the POSIX class scan as written

  /** `while (glob[++i] !== ":") value += glob[i];` for at most `fuel`
      passes: `None` when it has not stopped by then.  Past the end of the
      glob `glob[i]` is `undefined`, which is appended as that word. */
  function ScanAsWritten(glob: string, i: nat, value: string, fuel: nat): (r: Option<(string, nat)>)
    decreases fuel
  {
    if fuel == 0 then None
    else if At(glob, i + 1) == Some(':') then Some((value, i + 1))
    else
      var piece := if i + 1 < |glob| then [glob[i + 1]] else "undefined";
      ScanAsWritten(glob, i + 1, value + piece, fuel - 1)
  }

  /** When a `:` does follow, the scan as written stops where the bounded
      scan `ClassEnd` does, with the same class name. */
  lemma {:induction false} ScanAsWrittenAgrees(glob: string, i: nat, value: string, fuel: nat)
    requires i < |glob| && ClassEnd(glob, i) < |glob| && fuel > ClassEnd(glob, i) - i - 1
    ensures ScanAsWritten(glob, i, value, fuel) == Some((value + glob[i + 1..ClassEnd(glob, i)], ClassEnd(glob, i)))
    decreases fuel
  {
    var k := ClassEnd(glob, i);
    if glob[i + 1] != ':' {
      assert k == ClassEnd(glob, i + 1);
      ScanAsWrittenAgrees(glob, i + 1, value + [glob[i + 1]], fuel - 1);
      assert glob[i + 1..k] == [glob[i + 1]] + glob[i + 2..k];
      assert value + [glob[i + 1]] + glob[i + 2..k] == value + glob[i + 1..k];
    } else {
      assert value + glob[i + 1..k] == value;
    }
  }

  /** When no `:` follows, the scan as written never stops. */
  lemma {:induction false} ScanAsWrittenRunsOn(glob: string, i: nat, value: string, fuel: nat)
    requires forall k :: i < k < |glob| ==> glob[k] != ':'
    ensures ScanAsWritten(glob, i, value, fuel).None?
    decreases fuel
  {
    if fuel > 0 {
      var piece := if i + 1 < |glob| then [glob[i + 1]] else "undefined";
      ScanAsWrittenRunsOn(glob, i + 1, value + piece, fuel - 1);
    }
  }

  /** In extended mode the glob `[[:x` opens a range, reaches the class scan
      at its `:`, and the scan as written stops after no number of passes;
      the bounded scan ends at the end of the glob. */
  lemma UnclosedClassName(fuel: nat)
    ensures var glob := "[[:x"; var o := Options(true, false, false, false, "", false);
      var s := Step(o, glob, Start);
      && s.inRange && s.i == 1 && glob[s.i] == '[' && At(glob, s.i + 1) == Some(':')
      && ScanAsWritten(glob, s.i + 1, "", fuel).None?
      && ClassEnd(glob, s.i + 1) == |glob|
  {
    ScanAsWrittenRunsOn("[[:x", 2, "", fuel);
  }
}
