/** The kinds of file the code generator can produce, and how a path selects one. */
module FileTypes {

  import opened Strings

  datatype FileType =
    | FIL | CLS | ENM | ENM_INT | ENM_STR | TRT | ITF
    | CLS_TEST | ENM_TEST | TRT_TEST
  {
    /** The backing string value of the enum case. */
    function Value(): String {
      match this
      case FIL => "file"
      case CLS => "class"
      case ENM => "enum"
      case ENM_INT => "enum-int"
      case ENM_STR => "enum-string"
      case TRT => "trait"
      case ITF => "interface"
      case CLS_TEST => "class-test"
      case ENM_TEST => "enum-test"
      case TRT_TEST => "trait-test"
    }

    predicate IsEnum() { this == ENM || this == ENM_INT || this == ENM_STR }

    predicate IsTest() { this == CLS_TEST || this == ENM_TEST || this == TRT_TEST }
  }

  /** The keywords looked for in a path, in the order they are tried; a later match replaces an earlier one. */
  const Keywords: seq<(String, FileType)> :=
    [("class", CLS), ("enum", ENM), ("trait", TRT), ("interface", ITF)]

  /** The fold over the keyword list: the type of the last keyword contained in `path`, else `found`. */
  function LastMatch(path: String, types: seq<(String, FileType)>, found: FileType): FileType {
    if types == [] then found
    else LastMatch(path, types[1..], if Contains(path, types[0].0) then types[0].1 else found)
  }

  /** The test variant of a type, when it has one. */
  function TestVariant(t: FileType): FileType {
    match t
    case CLS => CLS_TEST
    case TRT => TRT_TEST
    case ENM => ENM_TEST
    case _ => t
  }

  /** `FileType::fromFilePath`: classify a path by the keywords it contains, ignoring case. */
  function FromFilePath(path: String): FileType {
    var p := Lower(path);
    var found := LastMatch(p, Keywords, CLS);
    if Contains(p, "test") then TestVariant(found) else found
  }

  /** `fromFilePath` as written: the loop over the keywords, then the test variant. */
  method ClassifyPath(path: String) returns (found: FileType)
    ensures found == FromFilePath(path)
  {
    var p := Lower(path);
    found := CLS;
    for k := 0 to |Keywords|
      invariant LastMatch(p, Keywords[k..], found) == LastMatch(p, Keywords, CLS)
    {
      assert Keywords[k..][1..] == Keywords[k + 1..];
      if !Contains(p, Keywords[k].0) {
        continue;
      }
      found := Keywords[k].1;
    }
    if Contains(p, "test") {
      found := TestVariant(found);
    }
  }

  /**
   * The classification as a priority list: "interface" beats "trait", which
   * beats "enum", which beats the default CLS; "test" then selects the test
   * variant of CLS, TRT and ENM and leaves ITF alone.
   */
  lemma FromFilePathPriority(path: String)
    ensures var p := Lower(path);
      var base :=
        if Contains(p, "interface") then ITF
        else if Contains(p, "trait") then TRT
        else if Contains(p, "enum") then ENM
        else CLS;
      FromFilePath(path) == if Contains(p, "test") then TestVariant(base) else base
  {
    var p := Lower(path);
    var f1 := LastMatch(p, Keywords[1..], CLS);
    var f2 := LastMatch(p, Keywords[2..], if Contains(p, "enum") then ENM else CLS);
    var f3 := LastMatch(p, Keywords[3..],
      if Contains(p, "trait") then TRT else if Contains(p, "enum") then ENM else CLS);
    assert Keywords[1..][1..] == Keywords[2..] && Keywords[2..][1..] == Keywords[3..];
    assert Keywords[3..] == [("interface", ITF)];
    assert LastMatch(p, Keywords, CLS) == f1;
    assert f1 == f2;
    assert f2 == f3;
    var last := [("interface", ITF)];
    assert last[1..] == [];
    var x := if Contains(p, "trait") then TRT else if Contains(p, "enum") then ENM else CLS;
    assert LastMatch(p, last, x) == LastMatch(p, [], if Contains(p, "interface") then ITF else x);
    assert f3 == if Contains(p, "interface") then ITF
      else if Contains(p, "trait") then TRT else if Contains(p, "enum") then ENM else CLS;
  }

  /** The classification never yields FIL, ENM_INT or ENM_STR. */
  lemma FromFilePathRange(path: String)
    ensures FromFilePath(path) !in {FIL, ENM_INT, ENM_STR}
    ensures FromFilePath(path).IsTest() <==> Contains(Lower(path), "test") && FromFilePath(path) != ITF
  {
    FromFilePathPriority(path);
  }

  lemma {:induction false} LowerIdempotent(s: String)
    ensures Lower(Lower(s)) == Lower(s)
  {
    assert forall i :: 0 <= i < |s| ==> LowerChar(LowerChar(s[i])) == LowerChar(s[i]);
  }

  /** The classification ignores letter case. */
  lemma FromFilePathCaseInsensitive(path: String)
    ensures FromFilePath(Lower(path)) == FromFilePath(path)
  {
    LowerIdempotent(path);
  }

  /** The file-name part of `getTemplatePath`. */
  function TemplateFile(t: FileType): (r: String)
    ensures r == "enum.php" <==> t.IsEnum()
    ensures r == "test.php" <==> t.IsTest()
    ensures r == t.Value() + ".php" <==> t in {CLS, TRT, ITF, FIL, ENM}
  {
    match t
    case CLS => "class.php"
    case ENM | ENM_INT | ENM_STR => "enum.php"
    case TRT => "trait.php"
    case ITF => "interface.php"
    case FIL => "file.php"
    case CLS_TEST | ENM_TEST | TRT_TEST => "test.php"
  }

  /** `getTemplatePath`: the template file under the resource directory's `templates` folder. */
  function TemplatePath(resourcePath: String, t: FileType): (r: String)
    ensures EndsWith(r, "/" + TemplateFile(t))
  {
    resourcePath + "templates" + "/" + TemplateFile(t)
  }

  /** `getTemplateVars`: the extra template variables, a `backed_type` for the backed enums only. */
  function TemplateVars(t: FileType): (r: map<String, String>)
    ensures r != map[] <==> t == ENM_INT || t == ENM_STR
    ensures t == ENM_INT ==> r == map["backed_type" := "int"]
    ensures t == ENM_STR ==> r == map["backed_type" := "string"]
  {
    match t
    case ENM_INT =>
      assert "backed_type" in map["backed_type" := "int"];
      map["backed_type" := "int"]
    case ENM_STR =>
      assert "backed_type" in map["backed_type" := "string"];
      map["backed_type" := "string"]
    case _ => map[]
  }
}
