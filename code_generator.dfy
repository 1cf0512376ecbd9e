/**
 * The string logic of the code generator: path normalisation (without the
 * final `realpath`), the PSR-4 namespace of a file, and the rule that a
 * lower-case type name generates a plain file.
 */
module CodeGenerator {

  import opened Wrappers
  import opened Strings
  import opened FileTypes

  /** The directory separator. */
  const DS: char := '/'

  predicate IsDotSegment(p: String) { p == "" || p == "." || p == ".." }

  /**
   * One step of the normalisation loop at index `i`: empty and `.` segments are
   * dropped; `..` is dropped together with the entry at `i - 1` if that entry
   * has not already been dropped.
   */
  function Step(parts: seq<String>, keep: seq<bool>, i: nat): (r: seq<bool>)
    requires |keep| == |parts| && i < |parts|
    ensures |r| == |parts|
  {
    if parts[i] == "" || parts[i] == "." then keep[i := false]
    else if parts[i] == ".." then
      if i > 0 && keep[i - 1] then keep[i := false][i - 1 := false] else keep[i := false]
    else keep
  }

  /** Which entries survive after the loop has visited indices `0 .. n - 1`. */
  function Mask(parts: seq<String>, n: nat): (r: seq<bool>)
    requires n <= |parts|
    ensures |r| == |parts|
  {
    if n == 0 then seq(|parts|, _ => true) else Step(parts, Mask(parts, n - 1), n - 1)
  }

  /** The entries of `parts` whose mask bit is set, in their original order. */
  function Kept(parts: seq<String>, keep: seq<bool>): (r: seq<String>)
    requires |keep| == |parts|
    ensures |r| <= |parts|
  {
    if parts == [] then []
    else (if keep[0] then [parts[0]] else []) + Kept(parts[1..], keep[1..])
  }

  /** The normalised path: the leading separator if there was one, then the survivors joined by it. */
  function Normalized(path: String): String {
    var parts := Split(path, DS);
    (if StartsWith(path, [DS]) then [DS] else []) + Join(Kept(parts, Mask(parts, |parts|)), [DS])
  }

  /** `normalizePath` without the `file_exists`/`realpath` step: the loop over `$i`, unsetting entries in place. */
  method NormalizePath(path: String) returns (r: String)
    ensures r == Normalized(path)
  {
    var isAbs := StartsWith(path, [DS]);
    var parts := Split(path, DS);
    var keep := seq(|parts|, _ => true);
    var i := 0;
    while i < |parts|
      invariant 0 <= i <= |parts|
      invariant keep == Mask(parts, i)
    {
      var part := parts[i];
      if part == "" || part == "." {
        keep := keep[i := false];
      } else if part == ".." {
        keep := keep[i := false];
        if i > 0 && keep[i - 1] {
          keep := keep[i - 1 := false];
        }
      }
      i := i + 1;
    }
    r := (if isAbs then [DS] else []) + Join(Kept(parts, keep), [DS]);
  }

  /** The loop only ever clears the bits of the current and the previous index. */
  lemma {:induction false} MaskUntouched(parts: seq<String>, n: nat, k: nat)
    requires n <= k < |parts|
    ensures Mask(parts, n)[k]
  {
    if n > 0 {
      MaskUntouched(parts, n - 1, k);
    }
  }

  /** Every surviving entry among the visited ones is an ordinary name. */
  lemma {:induction false} MaskDropsDots(parts: seq<String>, n: nat, k: nat)
    requires n <= |parts| && k < n
    requires Mask(parts, n)[k]
    ensures !IsDotSegment(parts[k])
  {
    if k < n - 1 {
      MaskDropsDots(parts, n - 1, k);
    }
  }

  lemma {:induction false} KeptOfNames(parts: seq<String>, keep: seq<bool>)
    requires |keep| == |parts|
    requires forall k :: 0 <= k < |parts| && keep[k] ==> !IsDotSegment(parts[k]) && DS !in parts[k]
    ensures forall j :: 0 <= j < |Kept(parts, keep)| ==>
      !IsDotSegment(Kept(parts, keep)[j]) && DS !in Kept(parts, keep)[j]
  {
    if parts != [] {
      KeptOfNames(parts[1..], keep[1..]);
    }
  }

  /** No empty, `.` or `..` segment survives normalisation. */
  lemma NormalizedHasNoDotSegments(path: String)
    ensures var parts := Split(path, DS);
      forall j :: 0 <= j < |Kept(parts, Mask(parts, |parts|))| ==>
        !IsDotSegment(Kept(parts, Mask(parts, |parts|))[j])
  {
    var parts := Split(path, DS);
    forall k | 0 <= k < |parts| && Mask(parts, |parts|)[k]
      ensures !IsDotSegment(parts[k]) && DS !in parts[k]
    {
      MaskDropsDots(parts, |parts|, k);
    }
    KeptOfNames(parts, Mask(parts, |parts|));
  }

  /** The normalised path starts with the separator exactly when the input did. */
  lemma NormalizedKeepsAbsoluteness(path: String)
    ensures StartsWith(Normalized(path), [DS]) <==> StartsWith(path, [DS])
  {
    var parts := Split(path, DS);
    var kept := Kept(parts, Mask(parts, |parts|));
    NormalizedHasNoDotSegments(path);
    forall k | 0 <= k < |parts| && Mask(parts, |parts|)[k]
      ensures !IsDotSegment(parts[k]) && DS !in parts[k]
    {
      MaskDropsDots(parts, |parts|, k);
    }
    KeptOfNames(parts, Mask(parts, |parts|));
    if !StartsWith(path, [DS]) && kept != [] {
      assert kept[0] != [] && kept[0][0] != DS;
      JoinStartsWithFirst(kept, [DS]);
    }
  }

  lemma {:induction false} JoinStartsWithFirst(parts: seq<String>, sep: String)
    requires parts != [] && parts[0] != []
    ensures Join(parts, sep) != [] && Join(parts, sep)[0] == parts[0][0]
  {
  }

  /** A `..` right after an ordinary name removes both; other entries are untouched by that step. */
  lemma DotDotRemovesPrevious(parts: seq<String>, i: nat)
    requires 0 < i < |parts|
    requires parts[i] == ".." && !IsDotSegment(parts[i - 1])
    ensures !Mask(parts, i + 1)[i] && !Mask(parts, i + 1)[i - 1]
    ensures Mask(parts, i + 1)[..i - 1] == Mask(parts, i - 1)[..i - 1]
  {
    MaskUntouched(parts, i - 1, i - 1);
    MaskUntouched(parts, i, i);
  }

  /** A `..` whose predecessor was already removed removes nothing else, e.g. `a/./../b` gives `a/b`. */
  lemma DotDotAfterRemovedEntry(parts: seq<String>, i: nat)
    requires 0 < i < |parts|
    requires parts[i] == ".." && !Mask(parts, i)[i - 1]
    ensures Mask(parts, i + 1) == Mask(parts, i)[i := false]
  {
  }

  /** The surviving entries keep their relative order: they form a subsequence of the input. */
  lemma {:induction false} KeptIsSubsequence(parts: seq<String>, keep: seq<bool>)
    requires |keep| == |parts|
    ensures IsSubsequence(Kept(parts, keep), parts)
  {
    if parts != [] {
      KeptIsSubsequence(parts[1..], keep[1..]);
      if keep[0] {
        assert Kept(parts, keep) == [parts[0]] + Kept(parts[1..], keep[1..]);
      } else {
        assert Kept(parts, keep) == Kept(parts[1..], keep[1..]);
      }
    }
  }

  /** `a` is `b` with some entries left out. */
  predicate IsSubsequence<T(==)>(a: seq<T>, b: seq<T>) {
    a == [] || (b != [] && ((a[0] == b[0] && IsSubsequence(a[1..], b[1..])) || IsSubsequence(a, b[1..])))
  }

  // ---------------------------------------------------------------------------
  // PSR-4 namespace of a file

  /** PHP `trim($s, $c)` and `rtrim($s, $c)` for a single character. */
  function TrimCharLeft(s: String, c: char): String {
    if s != [] && s[0] == c then TrimCharLeft(s[1..], c) else s
  }

  function TrimCharRight(s: String, c: char): String {
    if s != [] && s[|s| - 1] == c then TrimCharRight(s[..|s| - 1], c) else s
  }

  function TrimChar(s: String, c: char): String {
    TrimCharRight(TrimCharLeft(s, c), c)
  }

  /** Every directory separator turned into a namespace separator. */
  function SlashesToBackslashes(s: String): (r: String)
    ensures |r| == |s|
    ensures forall i :: 0 <= i < |s| ==> r[i] == if s[i] == DS then '\\' else s[i]
  {
    seq(|s|, i requires 0 <= i < |s| => if s[i] == DS then '\\' else s[i])
  }

  /**
   * The namespace of a file found under a PSR-4 root: `prefix` is the
   * configured namespace prefix, `root` the normalised base directory and
   * `dir` the file's directory.
   */
  function Psr4Namespace(prefix: String, root: String, dir: String): String {
    var fileNs := SlashesToBackslashes(TrimChar(ReplaceAll(dir, root, ""), DS));
    TrimCharRight(prefix, '\\') + (if fileNs != [] then "\\" + fileNs else "")
  }

  /**
   * Section 3 of PSR-4: the namespace is the prefix without its trailing
   * separators, followed by the sub-directory below the base directory with
   * directory separators turned into namespace separators (nothing when the
   * file sits in the base directory itself).
   */
  lemma Psr4NamespaceOfSubdirectory(prefix: String, root: String, rel: String)
    requires root != [] && rel != []
    requires rel[0] != DS && rel[|rel| - 1] != DS
    requires !Contains([DS] + rel, root)
    ensures Psr4Namespace(prefix, root, root + [DS] + rel) ==
      TrimCharRight(prefix, '\\') + "\\" + SlashesToBackslashes(rel)
  {
    var dir := root + [DS] + rel;
    assert StartsWith(dir, root);
    assert dir[|root|..] == [DS] + rel;
    ReplaceAllAbsent([DS] + rel, root, "");
    assert ReplaceAll(dir, root, "") == [DS] + rel;
    assert TrimCharLeft([DS] + rel, DS) == rel by {
      assert ([DS] + rel)[1..] == rel;
    }
  }

  lemma Psr4NamespaceOfRoot(prefix: String, root: String)
    requires root != []
    ensures Psr4Namespace(prefix, root, root) == TrimCharRight(prefix, '\\')
  {
    assert StartsWith(root, root);
    assert root[|root|..] == [];
    assert ReplaceAll(root, root, "") == [];
    assert SlashesToBackslashes(TrimChar([], DS)) == [];
  }

  // ---------------------------------------------------------------------------
  // The type chosen by `generate`

  /**
   * The type used by `generate`: the requested one or the one inferred from
   * the path, unless the type name does not start with a character that
   * differs from its lower-case form, which forces a plain file.
   */
  function ResolveType(name: String, requested: Option<FileType>, path: String): (r: FileType)
    ensures (name == [] || name[0] == LowerChar(name[0])) ==> r == FIL
    ensures name != [] && name[0] != LowerChar(name[0]) ==> r == requested.GetOr(FromFilePath(path))
    ensures r != FIL ==> 'A' <= name[0] <= 'Z'
  {
    if name == [] || name[0] == LowerChar(name[0]) then FIL
    else
      assert 'A' <= name[0] <= 'Z';
      requested.GetOr(FromFilePath(path))
  }
}
