/**
 * The two `pathlib.PurePosixPath` accessors the bot uses to name
 * downloaded files: `.name` (the final component) and `.suffix`
 * (the extension of the final component).
 */
module PurePath {
  import opened Strings

  /** `PurePosixPath(p).name`: the text after the last `/`, trailing
      separators ignored. */
  function Name(p: string): (r: string)
    ensures '/' !in r
    ensures |r| <= |p|
  {
    var t := RStrip(p, '/');
    var i := LastIndexOf(t, '/');
    t[i + 1..]
  }

  /** `.name` is the final component: with trailing separators dropped,
      the path ends in the name, and the name is the whole path or follows
      a separator. */
  lemma NameIsFinalComponent(p: string)
    ensures var t := RStrip(p, '/');
      var r := Name(p);
      && |r| <= |t|
      && r == t[|t| - |r|..]
      && (|r| == |t| || t[|t| - |r| - 1] == '/')
  {
    var t := RStrip(p, '/');
    var i := LastIndexOf(t, '/');
    assert |Name(p)| == |t| - i - 1;
  }

  /** A final component has an extension when its last `.` is neither its
      first nor its last character. */
  predicate HasExtension(n: string) {
    (exists i :: 0 < i < |n| && n[i] == '.') && n[|n| - 1] != '.'
  }

  /** An extension: a dot followed by at least one character, with no other
      dot and no separator. */
  predicate IsExtension(e: string) {
    && |e| >= 2 && e[0] == '.'
    && forall i :: 0 <= i < |e| ==> e[i] != '/' && (i > 0 ==> e[i] != '.')
  }

  /** No dot except, possibly, a leading one. */
  predicate NoInnerDot(n: string) {
    forall i :: 0 < i < |n| ==> n[i] != '.'
  }

  /** `PurePosixPath(p).suffix`: the text of the final component from its
      last `.` on, or "" when that dot is missing, leading or trailing. */
  function Suffix(p: string): (r: string)
    ensures var n := Name(p);
      && (r != "" <==> HasExtension(n))
      && (r != "" ==> 2 <= |r| < |n| && r == n[|n| - |r|..])
      && (r != "" ==> IsExtension(r))
  {
    var n := Name(p);
    var i := LastIndexOf(n, '.');
    if 0 < i < |n| - 1 then
      assert forall k :: 0 <= k < |n[i..]| ==> n[i..][k] == n[i + k];
      n[i..]
    else
      ""
  }

  /** A path without separators is its own final component. */
  lemma NameOfPlain(p: string)
    requires '/' !in p
    ensures Name(p) == p
  {
    assert RStrip(p, '/') == p;
  }

  /** The final component of `dir / n` is `n`, for a non-empty,
      separator-free `n`, whatever the directory. */
  lemma NameAfterSeparator(dir: string, n: string)
    requires n != [] && '/' !in n
    ensures Name(dir + "/" + n) == n
  {
    var p := dir + "/" + n;
    assert p[|p| - 1] == n[|n| - 1];
    assert RStrip(p, '/') == p;
    assert forall j :: |dir| < j < |p| ==> p[j] == n[j - |dir| - 1];
    LastIndexOfAt(p, '/', |dir|);
    assert p[|dir| + 1..] == n;
  }

  /** Two separator-free pieces make a separator-free final component. */
  lemma NameOfPlainJoin(a: string, b: string)
    requires '/' !in a && '/' !in b
    ensures '/' !in a + b && Name(a + b) == a + b
  {
    assert forall k :: 0 <= k < |a + b| ==> (a + b)[k] == if k < |a| then a[k] else b[k - |a|];
    NameOfPlain(a + b);
  }

  /** Round trip: a separator-free stem followed by a one-dot extension has
      exactly that extension as its suffix. */
  lemma SuffixOfStemAndExtension(stem: string, ext: string)
    requires stem != [] && '/' !in stem
    requires IsExtension(ext)
    ensures Suffix(stem + ext) == ext
  {
    var n := stem + ext;
    assert '/' !in ext by {
      assert forall i :: 0 <= i < |ext| ==> ext[i] != '/';
    }
    NameOfPlainJoin(stem, ext);
    assert forall j :: |stem| < j < |n| ==> n[j] == ext[j - |stem|];
    LastIndexOfAt(n, '.', |stem|);
    assert n[|stem|..] == ext;
  }

  /** The extension is taken from the last dot only. */
  lemma SuffixOfDoubleExtension()
    ensures Suffix("archive.tar.gz") == ".gz"
  {
    SuffixOfStemAndExtension("archive.tar", ".gz");
    assert "archive.tar" + ".gz" == "archive.tar.gz";
  }

  /** A name whose only dot (if any) is its first character has no
      extension: a hidden file's leading dot is not one. */
  lemma NoSuffixWithoutInnerDot(n: string)
    requires '/' !in n
    requires NoInnerDot(n)
    ensures Suffix(n) == ""
  {
    NameOfPlain(n);
  }
}
