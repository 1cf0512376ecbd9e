/**
 * `format`: the input is cut into `;`-terminated statements; each statement
 * gives its kind (class, `const` or `function`) and a body, which may be a
 * comma-separated list or a namespace followed by a braced list; every name
 * is added to the tree of its kind; and the three kinds are written in the
 * order class, const, function, separated by an empty line.
 */
module UseFormat {

  import opened Wrappers
  import opened Strings
  import opened UseTree
  import opened UseRender

  /** The exceptions thrown by `format`. */
  datatype FormatError =
    | NoContent         // the input is blank
    | NoStatements      // no `;` anywhere in the input
    | UsePrefixMissing  // a statement does not start with `use` and whitespace
    | InvalidBrackets   // a statement has `{` but does not end with `}`

  // ---------------------------------------------------------------------------
  // The statement prefix: `preg_match('#^use\s+(const|function)?(\s+)?#', ...)`

  /** What the pattern matched: the kind and the length of the matched text. */
  datatype UsePrefix = UsePrefix(kind: Kind, length: nat)

  predicate UseThenSpace(s: String) {
    StartsWith(s, "use") && |s| > 3 && IsSpace(s[3])
  }

  /**
   * The pattern as written: after `use` and its whitespace, the words `const`
   * and `function` are taken whatever follows them, then any whitespace.
   */
  function MatchUseAsWritten(s: String): (r: Option<UsePrefix>)
    ensures r.None? <==> !UseThenSpace(s)
    ensures r.Some? ==> 4 <= r.value.length <= |s|
    ensures r.Some? ==> var j := SpaceRunEnd(s, 3);
      && (r.value.kind == ConstKind <==> StartsWith(s[j..], "const"))
      && (r.value.kind == FunctionKind <==> StartsWith(s[j..], "function"))
      && (r.value.length == |s| || !IsSpace(s[r.value.length]))
  {
    if !UseThenSpace(s) then None
    else
      var j := SpaceRunEnd(s, 3);
      if StartsWith(s[j..], "const") then Some(UsePrefix(ConstKind, SpaceRunEnd(s, j + 5)))
      else if StartsWith(s[j..], "function") then Some(UsePrefix(FunctionKind, SpaceRunEnd(s, j + 8)))
      else Some(UsePrefix(ClassKind, j))
  }

  /** The word `w` at `j`, followed by whitespace. */
  predicate KeywordAt(s: String, j: nat, w: String) {
    j + |w| < |s| && s[j..j + |w|] == w && IsSpace(s[j + |w|])
  }

  /**
   * The pattern as intended, `^use\s+(?:(const|function)\s+)?`: a keyword
   * counts only as a whole word followed by whitespace.
   */
  function MatchUse(s: String): (r: Option<UsePrefix>)
    ensures r.None? <==> !UseThenSpace(s)
    ensures r.Some? ==> 4 <= r.value.length <= |s|
    ensures r.Some? ==> var j := SpaceRunEnd(s, 3);
      && (r.value.kind == ConstKind <==> KeywordAt(s, j, "const"))
      && (r.value.kind == FunctionKind <==> KeywordAt(s, j, "function"))
      && (r.value.length == |s| || !IsSpace(s[r.value.length]))
  {
    if !UseThenSpace(s) then None
    else
      var j := SpaceRunEnd(s, 3);
      if KeywordAt(s, j, "const") then Some(UsePrefix(ConstKind, SpaceRunEnd(s, j + 5)))
      else if KeywordAt(s, j, "function") then Some(UsePrefix(FunctionKind, SpaceRunEnd(s, j + 8)))
      else Some(UsePrefix(ClassKind, j))
  }

  /** A keyword followed by whitespace is also a keyword the pattern as written matches. */
  lemma KeywordStarts(s: String, j: nat, w: String)
    requires j <= |s|
    ensures KeywordAt(s, j, w) ==> StartsWith(s[j..], w)
  {
    if KeywordAt(s, j, w) {
      assert s[j..][..|w|] == s[j..j + |w|];
    }
  }

  /**
   * The two readings differ exactly when the word after `use` begins with
   * `const` or `function` and no whitespace follows that keyword.
   */
  lemma MatchUseDiffersFromAsWritten(s: String)
    ensures MatchUse(s) != MatchUseAsWritten(s) <==>
      UseThenSpace(s) &&
      var j := SpaceRunEnd(s, 3);
      (StartsWith(s[j..], "const") && !KeywordAt(s, j, "const")) ||
      (StartsWith(s[j..], "function") && !KeywordAt(s, j, "function"))
  {
    if UseThenSpace(s) {
      var j := SpaceRunEnd(s, 3);
      if StartsWith(s[j..], "const") {
        assert s[j] == 'c';
      } else if StartsWith(s[j..], "function") {
        assert !KeywordAt(s, j, "const") by {
          assert s[j] == 'f';
        }
        if KeywordAt(s, j, "function") {
          assert MatchUse(s) == MatchUseAsWritten(s);
        } else {
          assert MatchUse(s) == Some(UsePrefix(ClassKind, j));
        }
      } else {
        KeywordStarts(s, j, "const");
        KeywordStarts(s, j, "function");
      }
    }
  }

  /** The text of a statement of kind `k` naming `name`, as the formatter writes it. */
  function UseText(k: Kind, name: String): String {
    "use " + KindPrefix(k) + name
  }

  /**
   * Reading back a written statement gives its kind, and the match ends where
   * the name begins; a class name may start with `const` or `function` as long
   * as that word is not followed by whitespace.
   */
  lemma MatchUseRoundTrip(k: Kind, name: String)
    requires name != [] && !IsSpace(name[0])
    requires k == ClassKind ==> !KeywordAt(name, 0, "const") && !KeywordAt(name, 0, "function")
    ensures MatchUse(UseText(k, name)) == Some(UsePrefix(k, |"use " + KindPrefix(k)|))
  {
    var s := UseText(k, name);
    var h := "use " + KindPrefix(k);
    assert s[..3] == "use" && s[3] == ' ';
    assert !IsSpace(s[4]) by {
      if k == ClassKind {
        assert s[4] == name[0];
      }
    }
    assert SpaceRunEnd(s, 4) == 4;
    assert SpaceRunEnd(s, 3) == 4;
    match k {
      case ClassKind =>
        assert s[4..] == name;
      case ConstKind =>
        assert s[4..9] == "const" && s[9] == ' ';
        assert s[10] == name[0];
        assert SpaceRunEnd(s, 10) == 10;
        assert SpaceRunEnd(s, 9) == 10;
      case FunctionKind =>
        assert s[4..12] == "function" && s[12] == ' ';
        assert !KeywordAt(s, 4, "const") by {
          assert s[4] == 'f';
        }
        assert s[13] == name[0];
        assert SpaceRunEnd(s, 13) == 13;
        assert SpaceRunEnd(s, 12) == 13;
    }
  }

  /** As written, a class name that begins with the letters `const` is read as a `const` import. */
  lemma AsWrittenReadsConstPrefix(name: String)
    requires StartsWith(name, "const")
    ensures MatchUseAsWritten(UseText(ClassKind, name)).Some?
    ensures MatchUseAsWritten(UseText(ClassKind, name)).value.kind == ConstKind
  {
    var s := UseText(ClassKind, name);
    assert s[..3] == "use" && s[3] == ' ';
    assert s[4] == 'c';
    assert SpaceRunEnd(s, 4) == 4;
    assert SpaceRunEnd(s, 3) == 4;
    assert s[4..][..5] == name[..5];
  }

  /** `use constants\Foo`: as written, a `const` import of `ants\Foo`; as intended, a class import. */
  lemma ConstantsNamespaceExample()
    ensures MatchUseAsWritten("use constants\\Foo") == Some(UsePrefix(ConstKind, 9))
    ensures "use constants\\Foo"[9..] == "ants\\Foo"
    ensures MatchUse("use constants\\Foo") == Some(UsePrefix(ClassKind, 4))
  {
    var s := "use constants\\Foo";
    assert s[..3] == "use" && s[3] == ' ' && s[4] == 'c';
    assert SpaceRunEnd(s, 4) == 4;
    assert SpaceRunEnd(s, 3) == 4;
    assert s[4..][..5] == "const";
    assert s[9] == 'a';
    assert SpaceRunEnd(s, 9) == 9;
    assert !KeywordAt(s, 4, "const");
    assert !KeywordAt(s, 4, "function") by {
      assert s[4] != 'f';
    }
  }

  // ---------------------------------------------------------------------------
  // Line breaks and tabs: `str_replace(["\r\n", "\r", "\n", "\t"], '', $s)`

  predicate IsBreak(c: char) {
    c == '\r' || c == '\n' || c == '\t'
  }

  /** The four replacements, applied one after the other. */
  function StripBreaks(s: String): String {
    ReplaceAll(ReplaceAll(ReplaceAll(ReplaceAll(s, "\r\n", ""), "\r", ""), "\n", ""), "\t", "")
  }

  /** `s` without the character `c`. */
  function Without(s: String, c: char): (r: String)
    ensures c !in r
  {
    if s == [] then [] else (if s[0] == c then [] else [s[0]]) + Without(s[1..], c)
  }

  /** `s` without carriage returns, line feeds and tabs, every other character kept in order. */
  function WithoutBreaks(s: String): (r: String)
    ensures forall i :: 0 <= i < |r| ==> !IsBreak(r[i])
  {
    if s == [] then [] else (if IsBreak(s[0]) then [] else [s[0]]) + WithoutBreaks(s[1..])
  }

  lemma {:induction false} ReplaceCharIsWithout(s: String, c: char)
    ensures ReplaceAll(s, [c], "") == Without(s, c)
  {
    if s != [] {
      ReplaceCharIsWithout(s[1..], c);
      if s[0] == c {
        assert StartsWith(s, [c]);
      }
    }
  }

  lemma WithoutCons(x: char, t: String, c: char)
    ensures Without([x] + t, c) == (if x == c then [] else [x]) + Without(t, c)
  {
    assert ([x] + t)[1..] == t;
  }

  /** The three single-character replacements that follow the `\r\n` one. */
  function WithoutChars(s: String): String {
    Without(Without(Without(s, '\r'), '\n'), '\t')
  }

  lemma WithoutCharsCons(x: char, t: String)
    ensures WithoutChars([x] + t) == (if IsBreak(x) then [] else [x]) + WithoutChars(t)
  {
    WithoutCons(x, t, '\r');
    var a := Without(t, '\r');
    if x == '\r' {
      assert Without([x] + t, '\r') == a;
    } else {
      assert Without([x] + t, '\r') == [x] + a;
      WithoutCons(x, a, '\n');
      var b := Without(a, '\n');
      if x == '\n' {
        assert Without([x] + a, '\n') == b;
      } else {
        assert Without([x] + a, '\n') == [x] + b;
        WithoutCons(x, b, '\t');
      }
    }
  }

  lemma {:induction false} PairsThenCharsIsWithoutBreaks(s: String)
    ensures WithoutChars(ReplaceAll(s, "\r\n", "")) == WithoutBreaks(s)
    decreases |s|
  {
    if s != [] {
      if StartsWith(s, "\r\n") {
        PairsThenCharsIsWithoutBreaks(s[2..]);
        assert ReplaceAll(s, "\r\n", "") == ReplaceAll(s[2..], "\r\n", "");
        assert s[1..][1..] == s[2..];
        assert WithoutBreaks(s[1..]) == WithoutBreaks(s[2..]);
      } else {
        PairsThenCharsIsWithoutBreaks(s[1..]);
        var rest := ReplaceAll(s[1..], "\r\n", "");
        assert ReplaceAll(s, "\r\n", "") == [s[0]] + rest;
        WithoutCharsCons(s[0], rest);
      }
    }
  }

  /** The replacements remove exactly the carriage returns, line feeds and tabs. */
  lemma StripBreaksRemovesBreaks(s: String)
    ensures StripBreaks(s) == WithoutBreaks(s)
  {
    var a := ReplaceAll(s, "\r\n", "");
    ReplaceCharIsWithout(a, '\r');
    ReplaceCharIsWithout(Without(a, '\r'), '\n');
    ReplaceCharIsWithout(Without(Without(a, '\r'), '\n'), '\t');
    PairsThenCharsIsWithoutBreaks(s);
  }

  // ---------------------------------------------------------------------------
  // The body of a statement: a plain list, or a namespace and a braced list

  /** PHP `substr($s, 0, $n)`: a negative length counts from the end of the string. */
  function SubstrFromStart(s: String, n: int): (r: String)
    ensures |r| <= |s| && r == s[..|r|]
  {
    if n >= 0 then (if n <= |s| then s[..n] else s)
    else if |s| + n >= 0 then s[..|s| + n] else []
  }

  /** The prefix put before each listed name, and the comma-separated list. */
  datatype Body = Body(prefix: String, list: String)

  /**
   * Without `{`, the whole body is the list. With it, the body must end in
   * `}`; the prefix is the text before the character that precedes `{`,
   * trimmed, followed by `\`; the list is the text between the braces.
   */
  function ReadBody(s: String): (r: Result<Body, FormatError>)
    ensures '{' !in s ==> r == Success(Body("", s))
    ensures '{' in s && !EndsWith(s, "}") ==> r == Failure(InvalidBrackets)
    ensures '{' in s && EndsWith(s, "}") ==> r.Success? && EndsWith(r.value.prefix, "\\")
  {
    match IndexOf(s, '{')
    case None => Success(Body("", s))
    case Some(b) =>
      if !EndsWith(s, "}") then Failure(InvalidBrackets)
      else
        assert s[|s| - 1] == '}';
        var prefix := Trim(SubstrFromStart(s, b - 1)) + "\\";
        assert prefix[|prefix| - 1..] == "\\";
        Success(Body(prefix, s[b + 1..|s| - 1]))
  }

  /** `ns\{list}` reads back as the trimmed namespace with its separator, and the list. */
  lemma ReadBodyBraced(ns: String, list: String)
    requires '{' !in ns
    ensures ReadBody(ns + "\\{" + list + "}") == Success(Body(Trim(ns) + "\\", list))
  {
    var s := ns + "\\{" + list + "}";
    var b := |ns| + 1;
    assert s[..b] == ns + "\\";
    assert '{' !in s[..b];
    assert s[b] == '{';
    assert IndexOf(s, '{') == Some(b);
    assert s[|s| - 1..] == "}";
    assert SubstrFromStart(s, b - 1) == ns;
    assert s[b + 1..|s| - 1] == list;
  }

  /**
   * A body with `{` at the very start: PHP reads `substr($s, 0, -1)`, so the
   * prefix becomes the whole body but its last character.
   */
  lemma ReadBodyBraceFirst(list: String)
    ensures ReadBody("{" + list + "}") ==
      Success(Body(Trim("{" + list) + "\\", list))
  {
    var s := "{" + list + "}";
    assert IndexOf(s, '{') == Some(0);
    assert s[|s| - 1..] == "}";
    assert SubstrFromStart(s, -1) == "{" + list;
    assert s[1..|s| - 1] == list;
  }

  // ---------------------------------------------------------------------------
  // `expandStatements`

  /** Each item, trimmed and put after the prefix, added in order. */
  function AddAll(es: seq<Entry>, items: seq<String>, prefix: String): seq<Entry> {
    if items == [] then es
    else AddStatement(AddAll(es, items[..|items| - 1], prefix), prefix + Trim(items[|items| - 1]))
  }

  function Expand(es: seq<Entry>, list: String, prefix: String): seq<Entry> {
    AddAll(es, Split(list, ','), prefix)
  }

  /** The loop over `explode(',', $statement)`. */
  method ExpandStatements(es: seq<Entry>, list: String, prefix: String) returns (r: seq<Entry>)
    ensures r == Expand(es, list, prefix)
  {
    var items := Split(list, ',');
    r := es;
    var i := 0;
    while i < |items|
      invariant 0 <= i <= |items|
      invariant r == AddAll(es, items[..i], prefix)
    {
      var item := Trim(items[i]);
      assert items[..i + 1][..i] == items[..i];
      r := AddStatement(r, prefix + item);
      i := i + 1;
    }
    assert items[..i] == items;
  }

  /** Expanding a comma-joined list adds its items one by one, in order. */
  lemma ExpandJoined(es: seq<Entry>, items: seq<String>, prefix: String)
    requires |items| >= 1
    requires forall i :: 0 <= i < |items| ==> ',' !in items[i]
    ensures Expand(es, Join(items, ","), prefix) == AddAll(es, items, prefix)
  {
    SplitJoin(items, ',');
  }

  /** Splitting at the first item: the rest of a list is added after the first item. */
  lemma AppendInit(a: seq<String>, b: seq<String>)
    requires b != []
    ensures a + b != [] && (a + b)[..|a + b| - 1] == a + b[..|b| - 1] && (a + b)[|a + b| - 1] == b[|b| - 1]
  {
  }

  lemma {:induction false} AddAllAppend(es: seq<Entry>, a: seq<String>, b: seq<String>, prefix: String)
    ensures AddAll(es, a + b, prefix) == AddAll(AddAll(es, a, prefix), b, prefix)
    decreases |b|
  {
    if b == [] {
      assert a + b == a;
    } else {
      var init := b[..|b| - 1];
      var last := b[|b| - 1];
      AddAllAppend(es, a, init, prefix);
      AppendInit(a, b);
      assert (a + b)[..|a + b| - 1] == a + init && (a + b)[|a + b| - 1] == last;
      calc {
        AddAll(es, a + b, prefix);
        AddStatement(AddAll(es, a + init, prefix), prefix + Trim(last));
        AddStatement(AddAll(AddAll(es, a, prefix), init, prefix), prefix + Trim(last));
        AddAll(AddAll(es, a, prefix), b, prefix);
      }
    }
  }

  // ---------------------------------------------------------------------------
  // Reading the statements

  /** The three trees, one per kind. */
  datatype Tables = Tables(classes: seq<Entry>, consts: seq<Entry>, functions: seq<Entry>)

  const NoTables := Tables([], [], [])

  function TableOf(t: Tables, k: Kind): seq<Entry> {
    match k
    case ClassKind => t.classes
    case ConstKind => t.consts
    case FunctionKind => t.functions
  }

  function WithTable(t: Tables, k: Kind, es: seq<Entry>): (r: Tables)
    ensures TableOf(r, k) == es
    ensures forall k' :: k' != k ==> TableOf(r, k') == TableOf(t, k')
  {
    match k
    case ClassKind => t.(classes := es)
    case ConstKind => t.(consts := es)
    case FunctionKind => t.(functions := es)
  }

  /** One trimmed statement (without its `;`) added to the tree of its kind. */
  function ReadStatement(t: Tables, statement: String): (r: Result<Tables, FormatError>)
    ensures !UseThenSpace(statement) ==> r == Failure(UsePrefixMissing)
    ensures MatchUse(statement).Some? ==>
      var body := StripBreaks(statement[MatchUse(statement).value.length..]);
      '{' in body && !EndsWith(body, "}") ==> r == Failure(InvalidBrackets)
    ensures r.Success? ==> var k := MatchUse(statement).value.kind;
      forall k' :: k' != k ==> TableOf(r.value, k') == TableOf(t, k')
  {
    match MatchUse(statement)
    case None => Failure(UsePrefixMissing)
    case Some(p) =>
      match ReadBody(StripBreaks(statement[p.length..]))
      case Failure(e) => Failure(e)
      case Success(body) => Success(WithTable(t, p.kind, Expand(TableOf(t, p.kind), body.list, body.prefix)))
  }

  /** The `while (($pos = strpos($content, ';')) !== false)` loop: statements read left to right. */
  function ReadAll(content: String, t: Tables): Result<Tables, FormatError>
    decreases |content|
  {
    match IndexOf(content, ';')
    case None => Success(t)
    case Some(pos) =>
      match ReadStatement(t, Trim(content[..pos]))
      case Failure(e) => Failure(e)
      case Success(next) => ReadAll(content[pos + 1..], next)
  }

  /** Text after the last `;` is ignored. */
  lemma ReadAllIgnoresTail(tail: String, t: Tables)
    requires ';' !in tail
    ensures ReadAll(tail, t) == Success(t)
  {
  }

  /** The first statement is read first, then the rest of the input. */
  lemma ReadAllFirst(statement: String, rest: String, t: Tables)
    requires ';' !in statement
    ensures var first := ReadStatement(t, Trim(statement));
      ReadAll(statement + ";" + rest, t) == if first.Success? then ReadAll(rest, first.value) else Failure(first.error)
  {
    var s := statement + ";" + rest;
    assert s[..|statement|] == statement;
    assert s[|statement|] == ';';
    assert IndexOf(s, ';') == Some(|statement|);
    assert s[|statement| + 1..] == rest;
  }

  // ---------------------------------------------------------------------------
  // Writing the result

  /** `assignDepths`, `buildStatements` and `renderStatements` for one kind. */
  function Block(es: seq<Entry>, k: Kind, max: int): String {
    Render(BuildList(Annotate(es), []), k, max)
  }

  /** The blocks of the kinds that have statements, in the order class, const, function. */
  function Blocks(t: Tables, max: int): (r: seq<String>)
    ensures |r| <= 3
  {
    Kept(Block(t.classes, ClassKind, max), Block(t.consts, ConstKind, max), Block(t.functions, FunctionKind, max),
      t.classes != [], t.consts != [], t.functions != [])
  }

  /** The texts whose flag is set, in order. */
  function Kept(x: String, y: String, z: String, px: bool, py: bool, pz: bool): seq<String> {
    (if px then [x] else []) + (if py then [y] else []) + (if pz then [z] else [])
  }

  function Output(t: Tables, max: int): String {
    Join(Blocks(t, max), "\n\n") + "\n"
  }

  /** `format`, with the maximum line length already resolved. */
  function FormatSpec(content: String, max: int): (r: Result<String, FormatError>)
    ensures Trim(content) == [] ==> r == Failure(NoContent)
    ensures Trim(content) != [] && ';' !in Trim(content) ==> r == Failure(NoStatements)
    ensures r.Success? ==> EndsWith(r.value, "\n")
  {
    var c := Trim(content);
    if c == [] then Failure(NoContent)
    else if ';' !in c then Failure(NoStatements)
    else
      match ReadAll(c, NoTables)
      case Failure(e) => Failure(e)
      case Success(t) =>
        var out := Output(t, max);
        assert out[|out| - 1..] == "\n";
        Success(out)
  }

  /** When only one kind has statements, the output is that kind's block and a line break. */
  lemma OutputOfOneKind(t: Tables, k: Kind, max: int)
    requires TableOf(t, k) != []
    requires forall k' :: k' != k ==> TableOf(t, k') == []
    ensures Output(t, max) == Block(TableOf(t, k), k, max) + "\n"
  {
    var c, n, f := Block(t.classes, ClassKind, max), Block(t.consts, ConstKind, max), Block(t.functions, FunctionKind, max);
    OnlyKind(t, k);
    assert Blocks(t, max) == Kept(c, n, f, k == ClassKind, k == ConstKind, k == FunctionKind);
    KeptOne(c, n, f, k);
    PickBlock(t, k, max);
    assert Join([Pick(c, n, f, k)], "\n\n") == Pick(c, n, f, k);
  }

  /** Only the kind `k` has statements. */
  lemma OnlyKind(t: Tables, k: Kind)
    requires TableOf(t, k) != []
    requires forall k' :: k' != k ==> TableOf(t, k') == []
    ensures (t.classes != []) == (k == ClassKind)
    ensures (t.consts != []) == (k == ConstKind)
    ensures (t.functions != []) == (k == FunctionKind)
  {
    assert TableOf(t, ClassKind) == t.classes;
    assert TableOf(t, ConstKind) == t.consts;
    assert TableOf(t, FunctionKind) == t.functions;
  }

  /** With only the flag of `k` set, the text kept is that of `k`. */
  lemma KeptOne(x: String, y: String, z: String, k: Kind)
    ensures Kept(x, y, z, k == ClassKind, k == ConstKind, k == FunctionKind) == [Pick(x, y, z, k)]
  {
  }

  /** Classes come first, then constants, then functions, one empty line between blocks. */
  lemma OutputOrder(t: Tables, max: int)
    requires t.classes != [] && t.consts != [] && t.functions != []
    ensures Output(t, max) ==
      Block(t.classes, ClassKind, max) + "\n\n" + Block(t.consts, ConstKind, max) + "\n\n" +
      Block(t.functions, FunctionKind, max) + "\n"
  {
    var x, y, z := Block(t.classes, ClassKind, max), Block(t.consts, ConstKind, max), Block(t.functions, FunctionKind, max);
    assert Blocks(t, max) == [x] + [y] + [z];
    JoinThree(x, y, z, "\n\n");
  }

  lemma JoinThree(x: String, y: String, z: String, sep: String)
    ensures Join([x] + [y] + [z], sep) == x + sep + y + sep + z
  {
    var xs := [x] + [y] + [z];
    assert xs[0] == x && xs[1..] == [y, z];
    assert [y, z][1..] == [z];
    assert Join(xs, sep) == x + sep + Join([y, z], sep);
    assert Join([y, z], sep) == y + sep + z;
    Assoc(x + sep, y + sep, z);
    Assoc(x + sep, y, sep);
  }

  /** The position of a kind's block in the output. */
  function KindOrder(k: Kind): nat {
    match k
    case ClassKind => 0
    case ConstKind => 1
    case FunctionKind => 2
  }

  /** When two kinds have statements, the earlier kind's block comes first, one empty line before the other. */
  lemma OutputOfTwoKinds(t: Tables, a: Kind, b: Kind, max: int)
    requires KindOrder(a) < KindOrder(b)
    requires TableOf(t, a) != [] && TableOf(t, b) != []
    requires forall k :: k != a && k != b ==> TableOf(t, k) == []
    ensures Output(t, max) == Block(TableOf(t, a), a, max) + "\n\n" + Block(TableOf(t, b), b, max) + "\n"
  {
    var c, n, f := Block(t.classes, ClassKind, max), Block(t.consts, ConstKind, max), Block(t.functions, FunctionKind, max);
    var pc, pn, pf := t.classes != [], t.consts != [], t.functions != [];
    var o := Third(a, b);
    assert TableOf(t, o) == [];
    FlagsOfTables(t);
    PickBlock(t, a, max);
    PickBlock(t, b, max);
    KeptTwo(c, n, f, pc, pn, pf, a, b);
    JoinTwo(Pick(c, n, f, a), Pick(c, n, f, b), "\n\n");
  }

  lemma FlagsOfTables(t: Tables)
    ensures forall k :: Flag(t.classes != [], t.consts != [], t.functions != [], k) == (TableOf(t, k) != [])
  {
    forall k ensures Flag(t.classes != [], t.consts != [], t.functions != [], k) == (TableOf(t, k) != []) {
    }
  }

  lemma PickBlock(t: Tables, k: Kind, max: int)
    ensures Pick(Block(t.classes, ClassKind, max), Block(t.consts, ConstKind, max), Block(t.functions, FunctionKind, max), k) ==
      Block(TableOf(t, k), k, max)
  {
  }

  function Flag(px: bool, py: bool, pz: bool, k: Kind): bool {
    match k
    case ClassKind => px
    case ConstKind => py
    case FunctionKind => pz
  }

  function Pick(x: String, y: String, z: String, k: Kind): String {
    match k
    case ClassKind => x
    case ConstKind => y
    case FunctionKind => z
  }

  /** With exactly two flags set, the texts kept are those two, in order. */
  lemma KeptTwo(x: String, y: String, z: String, px: bool, py: bool, pz: bool, a: Kind, b: Kind)
    requires KindOrder(a) < KindOrder(b)
    requires Flag(px, py, pz, a) && Flag(px, py, pz, b) && !Flag(px, py, pz, Third(a, b))
    ensures Kept(x, y, z, px, py, pz) == [Pick(x, y, z, a), Pick(x, y, z, b)]
  {
  }

  /** The kind that is neither `a` nor `b`. */
  function Third(a: Kind, b: Kind): (r: Kind)
    requires a != b
    ensures r != a && r != b
  {
    if a != ClassKind && b != ClassKind then ClassKind
    else if a != ConstKind && b != ConstKind then ConstKind
    else FunctionKind
  }

  lemma JoinTwo(x: String, y: String, sep: String)
    ensures Join([x, y], sep) == x + sep + y
  {
    assert [x, y][1..] == [y];
  }

  // ---------------------------------------------------------------------------
  // Every block ends with a statement's `;`

  predicate TablesFilled(t: Tables) {
    Filled(t.classes) && Filled(t.consts) && Filled(t.functions)
  }

  predicate HasStatements(t: Tables) {
    t.classes != [] || t.consts != [] || t.functions != []
  }

  /** No kind has a top-level name equal to the root marker. */
  predicate TablesRootFree(t: Tables) {
    RootFree(t.classes) && RootFree(t.consts) && RootFree(t.functions)
  }

  lemma WithTableFilled(t: Tables, k: Kind, es: seq<Entry>)
    requires TablesFilled(t) && Filled(es)
    ensures TablesFilled(WithTable(t, k, es)) && Filled(TableOf(t, k))
  {
  }

  lemma {:induction false} AddAllFilled(es: seq<Entry>, items: seq<String>, prefix: String)
    requires Filled(es)
    ensures Filled(AddAll(es, items, prefix))
    ensures items != [] ==> AddAll(es, items, prefix) != []
    decreases |items|
  {
    if items != [] {
      var init := AddAll(es, items[..|items| - 1], prefix);
      AddAllFilled(es, items[..|items| - 1], prefix);
      AddStatementFilled(init, prefix + Trim(items[|items| - 1]));
    }
  }

  /** A statement read leaves no namespace without names, and its kind has names. */
  lemma ReadStatementFills(t: Tables, statement: String)
    requires TablesFilled(t)
    ensures var r := ReadStatement(t, statement);
      r.Success? ==> TablesFilled(r.value) && TableOf(r.value, MatchUse(statement).value.kind) != [] && HasStatements(r.value)
  {
    match MatchUse(statement)
    case None =>
    case Some(p) =>
      match ReadBody(StripBreaks(statement[p.length..]))
      case Failure(_) =>
      case Success(body) =>
        var es := Expand(TableOf(t, p.kind), body.list, body.prefix);
        WithTableFilled(t, p.kind, []);
        AddAllFilled(TableOf(t, p.kind), Split(body.list, ','), body.prefix);
        WithTableFilled(t, p.kind, es);
  }

  /** After the loop, no namespace is without names, and an input with a `;` has given some kind names. */
  lemma {:induction false} ReadAllFills(content: String, t: Tables)
    requires TablesFilled(t)
    ensures var r := ReadAll(content, t);
      r.Success? ==> TablesFilled(r.value) && (HasStatements(t) || ';' in content ==> HasStatements(r.value))
    decreases |content|
  {
    match IndexOf(content, ';')
    case None =>
      assert ReadAll(content, t) == Success(t);
    case Some(pos) =>
      ReadAllStep(content, t, pos);
      var s := Trim(content[..pos]);
      ReadStatementFills(t, s);
      var f := ReadStatement(t, s);
      if f.Success? {
        ReadAllFills(content[pos + 1..], f.value);
      }
  }

  lemma BlockEndsWithSemicolon(es: seq<Entry>, k: Kind, max: int)
    requires Filled(es) && RootFree(es)
    ensures es != [] ==> EndsWith(Block(es, k, max), ";")
  {
    if es != [] {
      BuildListNotEmpty(es);
      BuildListRootNamed(es);
      RenderEndsWithSemicolon(BuildList(Annotate(es), []), k, max);
    }
  }

  /** The last block written is that of the last kind with statements, and it ends with `;`. */
  lemma LastBlockEndsWithSemicolon(t: Tables, max: int)
    requires TablesFilled(t) && TablesRootFree(t) && HasStatements(t)
    ensures var bs := Blocks(t, max); bs != [] && EndsWith(bs[|bs| - 1], ";")
  {
    var x, y, z := Block(t.classes, ClassKind, max), Block(t.consts, ConstKind, max), Block(t.functions, FunctionKind, max);
    BlockEndsWithSemicolon(t.classes, ClassKind, max);
    BlockEndsWithSemicolon(t.consts, ConstKind, max);
    BlockEndsWithSemicolon(t.functions, FunctionKind, max);
    assert Blocks(t, max) == Kept(x, y, z, t.classes != [], t.consts != [], t.functions != []);
    LastPresentEndsWith(x, y, z, t.classes != [], t.consts != [], t.functions != [], ";");
  }

  /** Of the texts kept, the last one ends with `u` when each kept text does. */
  lemma LastPresentEndsWith(x: String, y: String, z: String, px: bool, py: bool, pz: bool, u: String)
    requires px || py || pz
    requires (px ==> EndsWith(x, u)) && (py ==> EndsWith(y, u)) && (pz ==> EndsWith(z, u))
    ensures var bs := Kept(x, y, z, px, py, pz); bs != [] && EndsWith(bs[|bs| - 1], u)
  {
  }

  /** The output ends with the last statement's `;` and exactly one line break. */
  lemma OutputEndsWithOneBreak(t: Tables, max: int)
    requires TablesFilled(t) && TablesRootFree(t) && HasStatements(t)
    ensures EndsWith(Output(t, max), ";\n")
  {
    var bs := Blocks(t, max);
    LastBlockEndsWithSemicolon(t, max);
    JoinEndsWithLast(bs, "\n\n");
    var j := Join(bs, "\n\n");
    EndsWithTransitive(j, bs[|bs| - 1], ";");
    EndsWithAppend(j, ";", "\n");
    assert ";" + "\n" == ";\n";
  }

  /**
   * `format` ends its result with a `;` and one line break, unless some
   * kind has a top-level name equal to the root marker.
   */
  lemma FormatEndsWithOneBreak(content: String, max: int)
    requires FormatSpec(content, max).Success?
    requires ReadAll(Trim(content), NoTables).Success? && TablesRootFree(ReadAll(Trim(content), NoTables).value)
    ensures EndsWith(FormatSpec(content, max).value, ";\n")
  {
    var c := Trim(content);
    ReadAllFills(c, NoTables);
    OutputEndsWithOneBreak(ReadAll(c, NoTables).value, max);
  }

  /** The function block of `use function --ROOT--;` alone is empty. */
  lemma RootMarkerBlock(max: int)
    ensures Block([Entry(RootNamespace, Node(true, None, Absent))], FunctionKind, max) == ""
  {
    var es := [Entry(RootNamespace, Node(true, None, Absent))];
    assert Annotate(es) == [Config(RootNamespace, true, None, 0, NoItems)];
    var cs := Annotate(es);
    assert !Pops(cs[0], []) && Display(cs[0]) == RootNamespace;
    assert BuildConfig(cs[0], []) == [Statement(RootNamespace, RootNamespace)];
    var st := Statement(RootNamespace, RootNamespace);
    assert seq(1, i requires 0 <= i < 1 => BuildConfig(cs[i], [])) == [[st]];
    assert Concat([[st]]) == [st];
    RootMarkerVanishes(FunctionKind, max);
  }

  /** `use function --ROOT--;` beside a class: the function block is empty, and two empty lines end the output. */
  lemma RootMarkerLeavesBlankLines(t: Tables, max: int)
    requires t.classes != [] && t.consts == []
    requires t.functions == [Entry(RootNamespace, Node(true, None, Absent))]
    ensures EndsWith(Output(t, max), "\n\n\n")
  {
    RootMarkerBlock(max);
    var x, y, z := Block(t.classes, ClassKind, max), Block(t.consts, ConstKind, max), Block(t.functions, FunctionKind, max);
    assert Blocks(t, max) == Kept(x, y, z, true, false, true);
    KeptTwo(x, y, z, true, false, true, ClassKind, FunctionKind);
    JoinTwo(x, z, "\n\n");
    EmptyLastBlock(x);
  }

  lemma EmptyLastBlock(x: String)
    ensures EndsWith(x + "\n\n" + "" + "\n", "\n\n\n")
  {
    var out := x + "\n\n" + "" + "\n";
    assert out[|out| - 3..] == "\n\n\n";
  }

  /** `use function --ROOT--;` puts the root marker at the top level of the function tree. */
  lemma RootMarkerStatement()
    ensures AddStatement([], RootNamespace) == [Entry(RootNamespace, Node(true, None, Absent))]
  {
    assert Join([RootNamespace], "\\") == RootNamespace;
    SplitJoin([RootNamespace], '\\');
    RootMarkerHasNoAlias();
    assert [RootNamespace][..0] + [RootNamespace] == [RootNamespace];
    assert Insert([], [RootNamespace], None) == [Entry(RootNamespace, Node(true, None, Absent))];
  }

  lemma RootMarkerHasNoAlias()
    ensures SplitAlias(RootNamespace) == (RootNamespace, None)
  {
    forall k | 0 <= k < |RootNamespace| ensures !AsAt(RootNamespace, k) {
      assert !IsSpace(RootNamespace[k]);
    }
  }

  // ---------------------------------------------------------------------------
  // The first failing statement stops `format`

  /** Reading a prefix that ends at a `;`, then what follows. */
  lemma {:induction false} ReadAllAppend(pre: String, s: String, t: Tables)
    requires pre == [] || EndsWith(pre, ";")
    ensures var r := ReadAll(pre, t);
      ReadAll(pre + s, t) == if r.Success? then ReadAll(s, r.value) else Failure(r.error)
    decreases |pre|
  {
    if pre == [] {
      assert pre + s == s;
    } else {
      assert pre[|pre| - 1] == ';';
      var pos := IndexOf(pre, ';').value;
      assert IndexOf(pre + s, ';') == Some(pos) by {
        assert (pre + s)[..pos] == pre[..pos];
        IndexOfPrefix(pre, s, ';');
      }
      assert (pre + s)[..pos] == pre[..pos];
      assert (pre + s)[pos + 1..] == pre[pos + 1..] + s;
      var rest := pre[pos + 1..];
      assert rest == [] || rest[|rest| - 1..] == ";" by {
        if rest != [] {
          assert rest[|rest| - 1] == pre[|pre| - 1];
        }
      }
      var f := ReadStatement(t, Trim(pre[..pos]));
      if f.Success? {
        ReadAllAppend(rest, s, f.value);
      }
    }
  }

  /** A statement that fails to read, after a prefix that reads, ends the loop with its error. */
  lemma ReadAllStopsAtBadStatement(pre: String, statement: String, rest: String, t: Tables)
    requires pre == [] || EndsWith(pre, ";")
    requires ';' !in statement
    requires ReadAll(pre, t).Success?
    ensures var f := ReadStatement(ReadAll(pre, t).value, Trim(statement));
      f.Failure? ==> ReadAll(pre + statement + ";" + rest, t) == Failure(f.error)
  {
    assert pre + statement + ";" + rest == pre + (statement + ";" + rest);
    ReadAllAppend(pre, statement + ";" + rest, t);
    ReadAllFirst(statement, rest, ReadAll(pre, t).value);
  }

  /**
   * Once the statements before it are read, a statement that does not start
   * with `use` and whitespace, or whose braces do not close at its end,
   * ends `format` with that statement's error; nothing after it is read.
   */
  lemma FormatStopsAtBadStatement(content: String, pre: String, statement: String, rest: String, max: int)
    requires Trim(content) == pre + statement + ";" + rest
    requires pre == [] || EndsWith(pre, ";")
    requires ';' !in statement
    requires ReadAll(pre, NoTables).Success?
    ensures var f := ReadStatement(ReadAll(pre, NoTables).value, Trim(statement));
      f.Failure? ==> FormatSpec(content, max) == Failure(f.error)
    ensures !UseThenSpace(Trim(statement)) ==> FormatSpec(content, max) == Failure(UsePrefixMissing)
  {
    var c := Trim(content);
    assert ';' in c by {
      assert c[|pre| + |statement|] == ';';
    }
    var f := ReadStatement(ReadAll(pre, NoTables).value, Trim(statement));
    if f.Failure? {
      assert ReadAll(c, NoTables) == Failure(f.error) by {
        ReadAllStopsAtBadStatement(pre, statement, rest, NoTables);
      }
    }
  }

  /** One pass of the statement loop: `ReadAll` unfolded once at the first `;`. */
  lemma ReadAllStep(content: String, t: Tables, pos: nat)
    requires IndexOf(content, ';') == Some(pos)
    ensures pos < |content|
    ensures var next := ReadStatement(t, Trim(content[..pos]));
      ReadAll(content, t) == if next.Success? then ReadAll(content[pos + 1..], next.value) else Failure(next.error)
  {
  }

  /** The body of the statement loop for one statement. */
  method ReadOne(t: Tables, statement: String) returns (r: Result<Tables, FormatError>)
    ensures r == ReadStatement(t, statement)
  {
    var prefix := MatchUse(statement);
    if prefix.None? {
      return Failure(UsePrefixMissing);
    }
    var kind := prefix.value.kind;
    var body := ReadBody(StripBreaks(statement[prefix.value.length..]));
    if body.Failure? {
      return Failure(body.error);
    }
    var es := ExpandStatements(TableOf(t, kind), body.value.list, body.value.prefix);
    r := Success(WithTable(t, kind, es));
  }

  /** `format`: the statement loop, then one block per kind that has statements. */
  method Format(content: String, max: int) returns (r: Result<String, FormatError>)
    ensures r == FormatSpec(content, max)
  {
    var c := Trim(content);
    if c == [] {
      return Failure(NoContent);
    }
    if ';' !in c {
      return Failure(NoStatements);
    }
    var t := NoTables;
    var rest := c;
    var pos := IndexOf(rest, ';');
    while pos.Some?
      invariant pos == IndexOf(rest, ';')
      invariant ReadAll(c, NoTables) == ReadAll(rest, t)
      decreases |rest|
    {
      ReadAllStep(rest, t, pos.value);
      var next := ReadOne(t, Trim(rest[..pos.value]));
      if next.Failure? {
        return Failure(next.error);
      }
      t := next.value;
      rest := rest[pos.value + 1..];
      pos := IndexOf(rest, ';');
    }
    assert ReadAll(c, NoTables) == Success(t);
    var out := WriteOutput(t, max);
    r := Success(out);
  }

  /** The `foreach ($statements as $type => $data)` loop and the final `implode`. */
  method WriteOutput(t: Tables, max: int) returns (out: String)
    ensures out == Output(t, max)
  {
    var classes: seq<String> := [];
    if t.classes != [] {
      var block := WriteBlock(t.classes, ClassKind, max);
      classes := [block];
    }
    var consts: seq<String> := [];
    if t.consts != [] {
      var block := WriteBlock(t.consts, ConstKind, max);
      consts := [block];
    }
    var functions: seq<String> := [];
    if t.functions != [] {
      var block := WriteBlock(t.functions, FunctionKind, max);
      functions := [block];
    }
    var groups := classes + consts + functions;
    out := Join(groups, "\n\n") + "\n";
  }

  /** The three passes for one kind. */
  method WriteBlock(es: seq<Entry>, k: Kind, max: int) returns (r: String)
    ensures r == Block(es, k, max)
  {
    var configs := AssignDepths(es);
    var statements := BuildStatements(configs, []);
    r := RenderStatements(statements, k, max);
  }
}
