/** The `.env` loader and the variable lookup of environment.py.

    The process environment (`os.environ`) is an explicit map of strings;
    the `.env` file is given as the sequence of lines that iterating over
    the open file yields (each line still carries its line terminator). */
module Environment {
  import opened Outcomes

  // ---------------------------------------------------------------------
  // Whitespace trimming: Python's str.strip() with no argument
  // ---------------------------------------------------------------------

  /** The characters for which Python's `str.isspace()` holds, which is the
      set `str.strip()` removes from both ends. */
  predicate IsSpace(c: char)
  {
    || ('\t' <= c <= '\r')                // tab, line feed, vertical tab, form feed, carriage return
    || ('\U{1C}' <= c <= '\U{1F}')        // file, group, record and unit separators
    || c == ' '
    || c == '\U{85}' || c == '\U{A0}' || c == '\U{1680}'
    || ('\U{2000}' <= c <= '\U{200A}')
    || c == '\U{2028}' || c == '\U{2029}' || c == '\U{202F}' || c == '\U{205F}' || c == '\U{3000}'
  }

  predicate AllSpace(s: string)
  {
    forall i :: 0 <= i < |s| ==> IsSpace(s[i])
  }

  /** Nothing left for `strip()` to remove. */
  predicate Trimmed(s: string)
  {
    s == [] || (!IsSpace(s[0]) && !IsSpace(s[|s| - 1]))
  }

  /** How many whitespace characters `s` starts with. */
  function Lead(s: string): (n: nat)
    ensures n <= |s|
    ensures forall i :: 0 <= i < n ==> IsSpace(s[i])
    ensures n == |s| || !IsSpace(s[n])
  {
    if s != [] && IsSpace(s[0]) then 1 + Lead(s[1..]) else 0
  }

  /** How many whitespace characters `s` ends with. */
  function Trail(s: string): (n: nat)
    ensures n <= |s|
    ensures forall i :: |s| - n <= i < |s| ==> IsSpace(s[i])
    ensures n == |s| || !IsSpace(s[|s| - n - 1])
  {
    if s != [] && IsSpace(s[|s| - 1]) then 1 + Trail(s[..|s| - 1]) else 0
  }

  /** Python's `s.strip()`: the middle of `s` once the whitespace at both
      ends is removed; `Lead(s)` characters go in front. */
  function Strip(s: string): (r: string)
    ensures Trimmed(r)
    ensures Lead(s) + |r| <= |s| && r == s[Lead(s)..Lead(s) + |r|]
    ensures AllSpace(s[..Lead(s)]) && AllSpace(s[Lead(s) + |r|..])
  {
    if Lead(s) == |s| then [] else s[Lead(s)..|s| - Trail(s)]
  }

  /** Whitespace followed by text that does not start with whitespace. */
  lemma LeadPadded(w: string, u: string)
    requires AllSpace(w)
    requires u == [] || !IsSpace(u[0])
    ensures Lead(w + u) == |w|
  {
    assert forall k :: 0 <= k < |w| ==> (w + u)[k] == w[k];
    assert u != [] ==> (w + u)[|w|] == u[0];
  }

  /** Text that does not end with whitespace, followed by whitespace. */
  lemma TrailPadded(u: string, w: string)
    requires AllSpace(w)
    requires u == [] || !IsSpace(u[|u| - 1])
    ensures Trail(u + w) == |w|
  {
    assert forall k :: |u| <= k < |u + w| ==> (u + w)[k] == w[k - |u|];
    assert u != [] ==> (u + w)[|u| - 1] == u[|u| - 1];
  }

  /** `strip()` gives back exactly the text between two runs of whitespace,
      whatever those runs are. */
  lemma StripPadded(w1: string, t: string, w2: string)
    requires AllSpace(w1) && AllSpace(w2) && Trimmed(t)
    ensures Strip(w1 + t + w2) == t
  {
    var s := w1 + t + w2;
    if t == [] {
      assert s == (w1 + w2) + [];
      LeadPadded(w1 + w2, []);
    } else {
      assert s == w1 + (t + w2) == (w1 + t) + w2;
      LeadPadded(w1, t + w2);
      TrailPadded(w1 + t, w2);
      assert s[|w1|..|s| - |w2|] == t;
    }
  }

  /** A character that is not whitespace occurs in `s.strip()` exactly when
      it occurs in `s`. */
  lemma StripKeepsNonSpace(s: string, c: char)
    requires !IsSpace(c)
    ensures c in Strip(s) <==> c in s
  {
    var r, i := Strip(s), Lead(s);
    assert forall k :: 0 <= k < i ==> s[k] == s[..i][k];
    assert forall k :: i + |r| <= k < |s| ==> s[k] == s[i + |r|..][k - i - |r|];
    assert forall k :: i <= k < i + |r| ==> s[k] == r[k - i];
  }

  // ---------------------------------------------------------------------
  // Splitting on the first separator: line.split("=", 1) unpacked in two
  // ---------------------------------------------------------------------

  /** `s.split(sep, 1)` unpacked into two names: the text before the first
      `sep` and the text after it, or `None` when `s` holds no `sep` (the
      split yields a single part and the unpacking raises). */
  function SplitOnFirst(s: string, sep: char): (r: Option<(string, string)>)
    ensures r.None? <==> sep !in s
    ensures r.Some? ==> s == r.value.0 + [sep] + r.value.1 && sep !in r.value.0
  {
    if s == [] then None
    else if s[0] == sep then Some(([], s[1..]))
    else match SplitOnFirst(s[1..], sep)
      case None => None
      case Some((before, after)) => Some(([s[0]] + before, after))
  }

  /** The split happens at the first separator, so whatever follows it,
      further separators included, is the second part. */
  lemma {:induction false} SplitOnFirstAt(before: string, after: string, sep: char)
    requires sep !in before
    ensures SplitOnFirst(before + [sep] + after, sep) == Some((before, after))
  {
    if before != [] {
      assert (before + [sep] + after)[1..] == before[1..] + [sep] + after;
      SplitOnFirstAt(before[1..], after, sep);
      assert [before[0]] + before[1..] == before;
    }
  }

  // ---------------------------------------------------------------------
  // One line of the .env file
  // ---------------------------------------------------------------------

  /** What the body of the loop in `load_dotenv` makes of one line. */
  datatype LineKind =
    | Blank                                  // nothing but whitespace: skipped
    | Comment                                // the raw line starts with '#': skipped
    | NoSeparator                            // no '=': unpacking the split raises ValueError
    | EmptyKeyOrValue                        // key or value empty after trimming: nothing stored
    | Assignment(key: string, value: string) // stored as environ[key] = value

  function ParseLine(line: string): (r: LineKind)
    ensures r == Blank <==> Strip(line) == []
    ensures r == Comment <==> Strip(line) != [] && line[0] == '#'
    ensures r == NoSeparator <==> Strip(line) != [] && line[0] != '#' && '=' !in line
    ensures r.Assignment? ==>
              && r.key != [] && r.value != []
              && Trimmed(r.key) && Trimmed(r.value)
              && '=' !in r.key
  {
    var stripped := Strip(line);
    StripKeepsNonSpace(line, '=');
    if stripped == [] then Blank
    else if line[0] == '#' then Comment
    else match SplitOnFirst(stripped, '=')
      case None => NoSeparator
      case Some((k, v)) =>
        var key, value := Strip(k), Strip(v);
        StripKeepsNonSpace(k, '=');
        if key != [] && value != [] then Assignment(key, value) else EmptyKeyOrValue
  }

  /** `line` spells out `key=value` with optional whitespace around the key
      and around the value, and is not a comment. */
  ghost predicate AssignmentLayout(line: string, key: string, value: string,
                                   w1: string, w2: string, w3: string, w4: string)
  {
    && AllSpace(w1) && AllSpace(w2) && AllSpace(w3) && AllSpace(w4)
    && key != [] && value != [] && Trimmed(key) && Trimmed(value)
    && '=' !in key
    && (w1 + key)[0] != '#'
    && line == w1 + key + w2 + "=" + w3 + value + w4
  }

  ghost predicate IsAssignmentLine(line: string, key: string, value: string)
  {
    exists w1, w2, w3, w4 :: AssignmentLayout(line, key, value, w1, w2, w3, w4)
  }

  /** A line stores `key = value` exactly when it is laid out as
      `key=value` padded with whitespace: the split is on the first '=', so
      the value may itself contain '=', and both halves are trimmed. */
  lemma ParseLineAssignment(line: string, key: string, value: string)
    ensures ParseLine(line) == Assignment(key, value) <==> IsAssignmentLine(line, key, value)
  {
    if ParseLine(line) == Assignment(key, value) {
      ParsedLayout(line, key, value);
    }
    if IsAssignmentLine(line, key, value) {
      var w1, w2, w3, w4 :| AssignmentLayout(line, key, value, w1, w2, w3, w4);
      LayoutParses(line, key, value, w1, w2, w3, w4);
    }
  }

  lemma ParsedLayout(line: string, key: string, value: string)
    requires ParseLine(line) == Assignment(key, value)
    ensures IsAssignmentLine(line, key, value)
  {
    var a, b := ParsedParts(line, key, value);
    var pre, post := StripWitness(line);
    var pa, sa := StripWitness(a);
    var pb, sb := StripWitness(b);
    var w1, w4 := pre + pa, sb + post;
    AllSpaceConcat(pre, pa);
    AllSpaceConcat(sb, post);
    Reassemble(line, Strip(line), a, b, key, value, pre, post, pa, sa, pb, sb);
    assert AssignmentLayout(line, key, value, w1, sa, pb, w4);
  }

  /** The parts the loader finds in a line that it stores. */
  lemma ParsedParts(line: string, key: string, value: string) returns (a: string, b: string)
    requires ParseLine(line) == Assignment(key, value)
    ensures Strip(line) == a + "=" + b
    ensures Strip(a) == key && Strip(b) == value
  {
    var parts := SplitOnFirst(Strip(line), '=').value;
    a, b := parts.0, parts.1;
  }

  /** `s` is what `strip()` removes in front, what it keeps, and what it
      removes behind. */
  lemma StripWitness(s: string) returns (pre: string, post: string)
    ensures s == pre + Strip(s) + post
    ensures AllSpace(pre) && AllSpace(post)
  {
    var i, r := Lead(s), Strip(s);
    pre, post := s[..i], s[i + |r|..];
    assert r == s[i..i + |r|];
    assert s == s[..i] + s[i..i + |r|] + s[i + |r|..];
  }

  lemma AllSpaceConcat(x: string, y: string)
    requires AllSpace(x) && AllSpace(y)
    ensures AllSpace(x + y)
  {
  }

  lemma Reassemble(line: string, t: string, a: string, b: string, key: string, value: string,
                   pre: string, post: string, pa: string, sa: string, pb: string, sb: string)
    requires line == pre + t + post && t == a + "=" + b
    requires a == pa + key + sa && b == pb + value + sb
    requires key != []
    ensures line == (pre + pa) + key + sa + "=" + pb + value + (sb + post)
    ensures ((pre + pa) + key)[0] == line[0]
  {
    assert line == (pre + pa) + key + (sa + "=" + pb + value + (sb + post));
  }

  lemma LayoutParses(line: string, key: string, value: string,
                     w1: string, w2: string, w3: string, w4: string)
    requires AssignmentLayout(line, key, value, w1, w2, w3, w4)
    ensures ParseLine(line) == Assignment(key, value)
  {
    var t := LayoutStrips(line, key, value, w1, w2, w3, w4);
    LayoutSplits(key, value, w2, w3);
    StripPadded([], key, w2);
    StripPadded(w3, value, []);
    assert [] + key + w2 == key + w2 && w3 + value + [] == w3 + value;
    PartsParse(line, key + w2, w3 + value, key, value);
  }

  /** Stripping a laid-out line leaves `key`, the padding around '=', and
      `value`; the line is not a comment. */
  lemma LayoutStrips(line: string, key: string, value: string,
                     w1: string, w2: string, w3: string, w4: string) returns (t: string)
    requires AssignmentLayout(line, key, value, w1, w2, w3, w4)
    ensures t == key + w2 + "=" + w3 + value
    ensures Strip(line) == t && line[0] != '#'
  {
    t := key + w2 + "=" + w3 + value;
    assert t[0] == key[0] && t[|t| - 1] == value[|value| - 1];
    assert line == w1 + t + w4;
    StripPadded(w1, t, w4);
    assert line[0] == (w1 + key)[0];
  }

  /** The first '=' of a laid-out line is the one after the key. */
  lemma LayoutSplits(key: string, value: string, w2: string, w3: string)
    requires AllSpace(w2) && '=' !in key
    ensures SplitOnFirst(key + w2 + "=" + w3 + value, '=') == Some((key + w2, w3 + value))
  {
    assert '=' !in key + w2 by {
      assert !IsSpace('=');
    }
    assert key + w2 + "=" + w3 + value == (key + w2) + ['='] + (w3 + value);
    SplitOnFirstAt(key + w2, w3 + value, '=');
  }

  /** A line whose parts trim to a non-empty key and value is stored. */
  lemma PartsParse(line: string, a: string, b: string, key: string, value: string)
    requires Strip(line) != [] && line[0] != '#'
    requires SplitOnFirst(Strip(line), '=') == Some((a, b))
    requires Strip(a) == key && Strip(b) == value && key != [] && value != []
    ensures ParseLine(line) == Assignment(key, value)
  {
  }

  /** `#KEY=value` is a comment. */
  lemma HashLineIsComment()
    ensures ParseLine("#KEY=value\n") == Comment
  {
    CommentParses("#KEY=value\n");
  }

  /** Only a line whose first character is '#' is a comment: an indented
      '#' starts a key. */
  lemma IndentedHashStartsKey()
    ensures ParseLine(" #KEY=value\n") == Assignment("#KEY", "value")
  {
    LayoutParses(" #KEY=value\n", "#KEY", "value", " ", "", "", "\n");
  }

  /** A line whose first character is '#' is a comment. */
  lemma CommentParses(line: string)
    requires line != [] && line[0] == '#'
    ensures ParseLine(line) == Comment
  {
    assert !IsSpace('#');
    StripNotEmpty(line, 0);
  }

  /** Only the first '=' separates: the value keeps any later one. */
  lemma ValueKeepsLaterSeparators()
    ensures ParseLine("URL = a=b\n") == Assignment("URL", "a=b")
  {
    LayoutParses("URL = a=b\n", "URL", "a=b", "", " ", " ", "\n");
  }

  /** A line with no '=' that is neither blank nor a comment makes the
      load fail. */
  lemma KeyWithoutSeparator()
    ensures ParseLine("KEY\n") == NoSeparator
  {
    NoSeparatorParses("KEY\n", 0);
  }

  /** `KEY=` stores nothing. */
  lemma EmptyValueStoresNothing()
    ensures ParseLine("KEY=\n") == EmptyKeyOrValue
  {
    var line, key := "KEY=\n", "KEY";
    assert line == "" + key + "=" + "" + "\n";
    assert Trimmed(key) && '=' !in key;
    EmptyPartParses(line, "", key, "", "\n");
  }

  /** `=value` stores nothing. */
  lemma EmptyKeyStoresNothing()
    ensures ParseLine("=value") == EmptyKeyOrValue
  {
    var line, value := "=value", "value";
    assert line == "" + "" + "=" + value + "";
    assert Trimmed(value);
    EmptyPartParses(line, "", "", value, "");
  }

  /** A line with a character that is not whitespace does not strip to
      nothing. */
  lemma StripNotEmpty(s: string, i: nat)
    requires i < |s| && !IsSpace(s[i])
    ensures Strip(s) != []
  {
  }

  /** A line with something besides whitespace, not starting with '#' and
      without '=', makes the unpacking fail. */
  lemma NoSeparatorParses(line: string, i: nat)
    requires i < |line| && !IsSpace(line[i])
    requires line[0] != '#' && '=' !in line
    ensures ParseLine(line) == NoSeparator
  {
    StripNotEmpty(line, i);
  }

  /** A laid-out line whose key or value is empty stores nothing. */
  lemma EmptyPartParses(line: string, w1: string, key: string, value: string, w4: string)
    requires AllSpace(w1) && AllSpace(w4) && Trimmed(key) && Trimmed(value)
    requires key == [] || value == []
    requires key != [] || value != []
    requires '=' !in key && (w1 + key + "=")[0] != '#'
    requires line == w1 + key + "=" + value + w4
    ensures ParseLine(line) == EmptyKeyOrValue
  {
    EmptyPartStrips(line, w1, key, value, w4);
    SplitOnFirstAt(key, value, '=');
    assert Strip([]) == [];
    PartsEmpty(line, key, value);
  }

  lemma EmptyPartStrips(line: string, w1: string, key: string, value: string, w4: string)
    requires AllSpace(w1) && AllSpace(w4) && Trimmed(key) && Trimmed(value)
    requires key == [] || value == []
    requires key != [] || value != []
    requires '=' !in key && (w1 + key + "=")[0] != '#'
    requires line == w1 + key + "=" + value + w4
    ensures Strip(line) == key + ['='] + value && line[0] != '#'
  {
    var t := key + "=" + value;
    assert Trimmed(t) by {
      assert t[0] == (if key == [] then '=' else key[0]);
      assert t[|t| - 1] == (if value == [] then '=' else value[|value| - 1]);
      assert !IsSpace('=');
    }
    assert line == w1 + t + w4;
    StripPadded(w1, t, w4);
    assert line[0] == (w1 + key + "=")[0];
  }

  /** A line whose key or value trims to nothing is not stored. */
  lemma PartsEmpty(line: string, a: string, b: string)
    requires Strip(line) != [] && line[0] != '#'
    requires SplitOnFirst(Strip(line), '=') == Some((a, b))
    requires Strip(a) == [] || Strip(b) == []
    ensures ParseLine(line) == EmptyKeyOrValue
  {
  }

  // ---------------------------------------------------------------------
  // Loading a whole file
  // ---------------------------------------------------------------------

  /** The errors of this module; Python raises `ValueError` for both. */
  datatype ValueError =
    | NotEnoughValues(line: nat)   // the line at this index has no '=' to split on
    | NotSet(key: string)          // get_value of a variable that is not set

  /** The environment after the loader has run over some lines, and the
      error it raised, if any. */
  datatype Loaded = Loaded(env: map<string, string>, error: Option<ValueError>)

  /** What each line of a file is, in file order. */
  function Classify(lines: seq<string>): (kinds: seq<LineKind>)
    ensures |kinds| == |lines|
    ensures forall i :: 0 <= i < |lines| ==> kinds[i] == ParseLine(lines[i])
  {
    seq(|lines|, i requires 0 <= i < |lines| => ParseLine(lines[i]))
  }

  lemma ClassifyConcat(a: seq<string>, b: seq<string>)
    ensures Classify(a + b) == Classify(a) + Classify(b)
  {
  }

  /** Running the loader over lines that are, in order, `kinds`, starting
      from `env`. The loop stops at the first line without '=', and what it
      stored before stays stored: the environment is updated in place. */
  function LoadKinds(env: map<string, string>, kinds: seq<LineKind>): (r: Loaded)
    ensures env.Keys <= r.env.Keys
    ensures r.error.Some? ==> r.error.value.NotEnoughValues? && r.error.value.line < |kinds|
  {
    if kinds == [] then Loaded(env, None)
    else
      var prev := LoadKinds(env, kinds[..|kinds| - 1]);
      if prev.error.Some? then prev
      else LoadStep(prev.env, kinds[|kinds| - 1], |kinds| - 1)
  }

  /** The loader run over the lines of a file. */
  function LoadLines(env: map<string, string>, lines: seq<string>): Loaded
  {
    LoadKinds(env, Classify(lines))
  }

  /** A line of this kind stores a value under `key`. */
  predicate AssignsKey(kind: LineKind, key: string)
  {
    kind.Assignment? && kind.key == key
  }

  /** `key` has the same value, or is absent, in both environments. */
  predicate SameAt(env: map<string, string>, env': map<string, string>, key: string)
  {
    (key in env <==> key in env') && (key in env ==> env[key] == env'[key])
  }

  /** One more line after lines that loaded without error. */
  lemma LoadNext(env: map<string, string>, lines: seq<string>, i: nat, vars: map<string, string>)
    requires i < |lines| && LoadLines(env, lines[..i]) == Loaded(vars, None)
    ensures LoadLines(env, lines[..i + 1]) == LoadStep(vars, ParseLine(lines[i]), i)
  {
    var kinds := Classify(lines[..i + 1]);
    assert lines[..i + 1][..i] == lines[..i];
    ClassifyConcat(lines[..i], [lines[i]]);
    assert kinds[..i] == Classify(lines[..i]);
  }

  /** The loader's state after the line at index `i`, of kind `kind`,
      following lines that stored `vars` without error. */
  function LoadStep(vars: map<string, string>, kind: LineKind, i: nat): (r: Loaded)
    ensures kind == NoSeparator <==> r.error.Some?
  {
    match kind
    case NoSeparator => Loaded(vars, Some(NotEnoughValues(i)))
    case Assignment(key, value) => Loaded(vars[key := value], None)
    case _ => Loaded(vars, None)
  }

  /** A line without '=' ends the load: the lines after it are not read. */
  lemma LoadEndsAt(env: map<string, string>, lines: seq<string>, i: nat, vars: map<string, string>)
    requires i < |lines| && LoadLines(env, lines[..i + 1]) == Loaded(vars, Some(NotEnoughValues(i)))
    ensures LoadLines(env, lines) == Loaded(vars, Some(NotEnoughValues(i)))
  {
    assert lines[..i + 1] + lines[i + 1..] == lines;
    ClassifyConcat(lines[..i + 1], lines[i + 1..]);
    LoadStopsAtError(env, Classify(lines[..i + 1]), Classify(lines[i + 1..]));
  }

  /** A line that is blank or starts with '#' stores nothing. */
  lemma SkipParses(line: string)
    requires Strip(line) == [] || line[0] == '#'
    ensures ParseLine(line) in {Blank, Comment}
  {
  }

  /** Once a line has raised, later lines are never read. */
  lemma {:induction false} LoadStopsAtError(env: map<string, string>, p: seq<LineKind>, q: seq<LineKind>)
    requires LoadKinds(env, p).error.Some?
    ensures LoadKinds(env, p + q) == LoadKinds(env, p)
  {
    if q == [] {
      assert p + q == p;
    } else {
      assert (p + q)[..|p + q| - 1] == p + q[..|q| - 1];
      LoadStopsAtError(env, p, q[..|q| - 1]);
    }
  }

  /** The loader fails exactly when some line has no '=', and then it fails
      at the first such line, with the environment the lines before it
      left. */
  lemma {:induction false} LoadFailsAtFirstNoSeparator(env: map<string, string>, kinds: seq<LineKind>)
    ensures LoadKinds(env, kinds).error.None? <==>
              forall j :: 0 <= j < |kinds| ==> kinds[j] != NoSeparator
    ensures LoadKinds(env, kinds).error.Some? ==>
              var i := LoadKinds(env, kinds).error.value.line;
              && i < |kinds|
              && kinds[i] == NoSeparator
              && (forall j :: 0 <= j < i ==> kinds[j] != NoSeparator)
              && LoadKinds(env, kinds).env == LoadKinds(env, kinds[..i]).env
  {
    if kinds != [] {
      var init := kinds[..|kinds| - 1];
      LoadFailsAtFirstNoSeparator(env, init);
      assert forall j :: 0 <= j < |init| ==> init[j] == kinds[j];
      var prev := LoadKinds(env, init);
      if prev.error.Some? {
        var i := prev.error.value.line;
        assert init[..i] == kinds[..i];
      }
    }
  }

  /** A variable that no line assigns keeps the value (or the absence) it
      had before those lines were loaded. */
  lemma {:induction false} LoadKeepsUnassignedKey(env: map<string, string>, p: seq<LineKind>, q: seq<LineKind>, key: string)
    requires forall j :: 0 <= j < |q| ==> !AssignsKey(q[j], key)
    ensures SameAt(LoadKinds(env, p).env, LoadKinds(env, p + q).env, key)
  {
    if q != [] {
      var q' := q[..|q| - 1];
      assert (p + q)[..|p + q| - 1] == p + q';
      assert (p + q)[|p + q| - 1] == q[|q| - 1];
      LoadKeepsUnassignedKey(env, p, q', key);
    } else {
      assert p + q == p;
    }
  }

  /** Removing a skipped line (blank, comment, or with an empty key or
      value) changes neither the resulting environment nor whether the load
      fails. */
  lemma {:induction false} SkippedLineIsInert(env: map<string, string>, p: seq<LineKind>, kind: LineKind, q: seq<LineKind>)
    requires kind == Blank || kind == Comment || kind == EmptyKeyOrValue
    ensures LoadKinds(env, p + [kind] + q).env == LoadKinds(env, p + q).env
    ensures LoadKinds(env, p + [kind] + q).error.None? == LoadKinds(env, p + q).error.None?
  {
    if q == [] {
      assert p + [kind] + q == p + [kind];
      assert (p + [kind])[..|p + [kind]| - 1] == p;
      assert p + q == p;
    } else {
      var q' := q[..|q| - 1];
      assert (p + [kind] + q)[..|p + [kind] + q| - 1] == p + [kind] + q';
      assert (p + [kind] + q)[|p + [kind] + q| - 1] == q[|q| - 1];
      assert (p + q)[..|p + q| - 1] == p + q';
      assert (p + q)[|p + q| - 1] == q[|q| - 1];
      SkippedLineIsInert(env, p, kind, q');
    }
  }

  /** In a file `p + [line] + q`, where `p` loads without error, `line`
      assigns `key` and no line of `q` does, the loaded environment maps
      `key` to the value of `line`: a later line overwrites an earlier one,
      even when `q` goes on to make the load fail. */
  lemma LoadLastAssignmentWins(env: map<string, string>, p: seq<string>, line: string,
                               q: seq<string>, key: string, value: string)
    requires LoadLines(env, p).error.None?
    requires ParseLine(line) == Assignment(key, value)
    requires forall j :: 0 <= j < |q| ==> !AssignsKey(ParseLine(q[j]), key)
    ensures var r := LoadLines(env, p + [line] + q).env; key in r && r[key] == value
  {
    ClassifyConcat(p, [line]);
    ClassifyConcat(p + [line], q);
    assert Classify([line]) == [Assignment(key, value)];
    LastAssignmentWins(env, Classify(p), key, value, Classify(q));
  }

  lemma LastAssignmentWins(env: map<string, string>, p: seq<LineKind>, key: string, value: string, q: seq<LineKind>)
    requires LoadKinds(env, p).error.None?
    requires forall j :: 0 <= j < |q| ==> !AssignsKey(q[j], key)
    ensures var r := LoadKinds(env, p + [Assignment(key, value)] + q).env; key in r && r[key] == value
  {
    assert (p + [Assignment(key, value)])[..|p|] == p;
    LoadKeepsUnassignedKey(env, p + [Assignment(key, value)], q, key);
  }

  // ---------------------------------------------------------------------
  // Lookup
  // ---------------------------------------------------------------------

  /** `get_value`: the value of a set variable, or `ValueError` naming the
      variable when it is not set. */
  function GetValue(env: map<string, string>, key: string): (r: Result<string, ValueError>)
    ensures r.Ok? <==> key in env
    ensures r.Ok? ==> r.value == env[key]
    ensures r.Err? ==> r.error == NotSet(key)
  {
    if key in env then Ok(env[key]) else Err(NotSet(key))
  }

  /** After a variable is assigned, `get_value` returns the new value, and
      every other variable reads as before. */
  lemma GetValueAfterAssignment(env: map<string, string>, key: string, value: string, other: string)
    ensures GetValue(env[key := value], key) == Ok(value)
    ensures other != key ==> GetValue(env[key := value], other) == GetValue(env, other)
  {
  }

  /** After loading, `get_value` of a variable returns what its last
      assigning line stored. */
  lemma GetValueAfterLoad(env: map<string, string>, p: seq<string>, line: string,
                          q: seq<string>, key: string, value: string)
    requires LoadLines(env, p).error.None?
    requires ParseLine(line) == Assignment(key, value)
    requires forall j :: 0 <= j < |q| ==> !AssignsKey(ParseLine(q[j]), key)
    ensures GetValue(LoadLines(env, p + [line] + q).env, key) == Ok(value)
  {
    LoadLastAssignmentWins(env, p, line, q, key, value);
  }

  // ---------------------------------------------------------------------
  // The process environment, updated in place by the loader
  // ---------------------------------------------------------------------

  /** The process environment `os.environ`. */
  class Environ {
    var vars: map<string, string>

    constructor (initial: map<string, string>)
      ensures vars == initial
    {
      vars := initial;
    }

    /** `load_dotenv` over the lines of the file: every line that passes
        the checks is stored at once; a line without '=' ends the loop with
        `ValueError`, keeping what was stored before it. */
    method LoadDotenv(lines: seq<string>) returns (error: Option<ValueError>)
      modifies this
      ensures vars == LoadLines(old(vars), lines).env
      ensures error == LoadLines(old(vars), lines).error
    {
      ghost var initial := vars;
      var i := 0;
      while i < |lines|
        invariant 0 <= i <= |lines|
        invariant LoadLines(initial, lines[..i]) == Loaded(vars, None)
      {
        var line := lines[i];
        LoadNext(initial, lines, i, vars);
        var stripped := Strip(line);
        if stripped != [] && line[0] != '#' {
          var parts := SplitOnFirst(stripped, '=');
          if parts.None? {
            StripKeepsNonSpace(line, '=');
            LoadEndsAt(initial, lines, i, vars);
            return Some(NotEnoughValues(i));
          }
          var key := Strip(parts.value.0);
          var value := Strip(parts.value.1);
          if key != [] && value != [] {
            PartsParse(line, parts.value.0, parts.value.1, key, value);
            vars := vars[key := value];
          } else {
            PartsEmpty(line, parts.value.0, parts.value.1);
          }
        } else {
          SkipParses(line);
        }
        i := i + 1;
      }
      assert lines[..i] == lines;
      return None;
    }
  }
}
