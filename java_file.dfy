/**
 * The parts of `java.io.File` that name a configuration file, on a
 * platform whose separator is '/'.
 *
 * `new File(path)` normalises its path: every run of separators becomes
 * one, and a trailing separator is dropped unless the path is the root.
 * `getName` and `getAbsolutePath` work on that normalised path.
 */
module JavaFile {

  /** A `java.io.File`, holding the path string it was constructed from. */
  datatype File = File(path: string)

  /** No two separators next to each other. */
  predicate SingleSeparators(s: string)
  {
    forall i :: 0 <= i < |s| - 1 ==> !(s[i] == '/' && s[i + 1] == '/')
  }

  /** Every run of separators collapsed to one; the last character is kept. */
  function Collapse(s: string): (r: string)
    ensures |r| <= |s|
    ensures s != [] ==> r != [] && r[|r| - 1] == s[|s| - 1]
    ensures SingleSeparators(r)
  {
    if |s| < 2 then s
    else if s[|s| - 1] == '/' && s[|s| - 2] == '/' then Collapse(s[..|s| - 1])
    else Collapse(s[..|s| - 1]) + [s[|s| - 1]]
  }

  /** The path a `File` keeps: runs of separators collapsed, a trailing one dropped unless it is the root. */
  function Normalize(path: string): (p: string)
    ensures SingleSeparators(p)
    ensures |p| > 1 ==> p[|p| - 1] != '/'
    ensures path != [] ==> p != []
    ensures Collapse(path) == p || (p != [] && Collapse(path) == p + "/")
  {
    var c := Collapse(path);
    if |c| > 1 && c[|c| - 1] == '/' then c[..|c| - 1] else c
  }

  /** Text without repeated separators is left as it is. */
  lemma {:induction false} CollapseSingleSeparators(s: string)
    requires SingleSeparators(s)
    ensures Collapse(s) == s
    decreases |s|
  {
    if |s| >= 2 {
      var init := s[..|s| - 1];
      assert SingleSeparators(init) by {
        forall i | 0 <= i < |init| - 1 ensures !(init[i] == '/' && init[i + 1] == '/') {
          assert init[i] == s[i] && init[i + 1] == s[i + 1];
        }
      }
      CollapseSingleSeparators(init);
      assert !(s[|s| - 2] == '/' && s[|s| - 1] == '/');
      assert s == init + [s[|s| - 1]];
    }
  }

  /** Collapsing one more character: it is dropped only when it repeats a separator. */
  lemma CollapseSnoc(s: string, x: char)
    ensures Collapse(s + [x]) ==
      if s != [] && s[|s| - 1] == '/' && x == '/' then Collapse(s) else Collapse(s) + [x]
  {
    assert (s + [x])[..|s|] == s;
  }

  /** A doubled separator collapses the same way as a single one, wherever it is. */
  lemma {:induction false} CollapseDoubleSeparator(a: string, b: string)
    ensures Collapse(a + "//" + b) == Collapse(a + "/" + b)
    decreases |b|
  {
    if b == [] {
      assert a + "//" + b == (a + "/") + ['/'];
      assert a + "/" + b == a + "/";
      CollapseSnoc(a + "/", '/');
    } else {
      var b' := b[..|b| - 1];
      var x := b[|b| - 1];
      var s' := a + "//" + b';
      var t' := a + "/" + b';
      assert a + "//" + b == s' + [x];
      assert a + "/" + b == t' + [x];
      assert s'[|s'| - 1] == t'[|t'| - 1];
      CollapseDoubleSeparator(a, b');
      CollapseSnoc(s', x);
      CollapseSnoc(t', x);
    }
  }

  /** Collapsing keeps the first character, so it keeps a path absolute or relative. */
  lemma {:induction false} CollapseFirst(s: string)
    requires s != []
    ensures Collapse(s)[0] == s[0]
    decreases |s|
  {
    if |s| >= 2 {
      CollapseFirst(s[..|s| - 1]);
    }
  }

  /** Collapsing leaves text without separators alone, and so works separately on it. */
  lemma {:induction false} CollapseAppendName(prefix: string, name: string)
    requires '/' !in name
    ensures Collapse(prefix + name) == Collapse(prefix) + name
    decreases |name|
  {
    if name == [] {
      assert prefix + name == prefix;
    } else {
      var init := name[..|name| - 1];
      assert (prefix + name)[..|prefix + name| - 1] == prefix + init;
      assert '/' !in init by {
        forall i | 0 <= i < |init| ensures init[i] != '/' {
          assert init[i] == name[i];
        }
      }
      CollapseAppendName(prefix, init);
      assert name == init + [name[|name| - 1]];
    }
  }

  /** Index of the last '/' in s, or -1. */
  function LastSlash(s: string): (i: int)
    ensures -1 <= i < |s|
    ensures 0 <= i ==> s[i] == '/'
    ensures forall j :: i < j < |s| ==> s[j] != '/'
  {
    if s == [] then -1
    else if s[|s| - 1] == '/' then |s| - 1
    else LastSlash(s[..|s| - 1])
  }

  /** `File.getName()`: the last name in the normalised path; empty only for the empty path and the root. */
  function FileName(f: File): (name: string)
    ensures var p := Normalize(f.path);
      (forall i :: 0 <= i < |name| ==> name[i] != '/') &&
      |name| <= |p| && p[|p| - |name|..] == name &&
      (|name| < |p| ==> p[|p| - |name| - 1] == '/')
    ensures name == [] <==> f.path == [] || Normalize(f.path) == "/"
  {
    var p := Normalize(f.path);
    p[LastSlash(p) + 1..]
  }

  /** A name after a separator is what `getName` returns. */
  lemma NameAfterSeparator(p: string, front: string, name: string)
    requires front != [] && front[|front| - 1] == '/'
    requires '/' !in name
    requires p == front + name
    ensures p[LastSlash(p) + 1..] == name
  {
    assert p[|front| - 1] == '/';
  }

  /** The name of a file in a directory is the text after the separator. */
  lemma FileNameIn(directory: string, name: string)
    requires name != [] && '/' !in name
    ensures FileName(File(directory + "/" + name)) == name
  {
    var front := Collapse(directory + "/");
    CollapseAppendName(directory + "/", name);
    assert Normalize(directory + "/" + name) == front + name;
    NameAfterSeparator(front + name, front, name);
  }

  /** A trailing separator does not change the name. */
  lemma FileNameTrailingSeparator(directory: string, name: string)
    requires name != [] && '/' !in name
    ensures FileName(File(directory + "/" + name + "/")) == name
  {
    var front := Collapse(directory + "/");
    CollapseAppendName(directory + "/", name);
    var full := directory + "/" + name;
    assert (full + "/")[..|full + "/"| - 1] == full;
    assert Collapse(full + "/") == front + name + "/";
    assert Normalize(full + "/") == front + name;
    NameAfterSeparator(front + name, front, name);
  }

  /** A bare name, with or without a trailing separator, is its own name. */
  lemma FileNameOfName(name: string)
    requires name != [] && '/' !in name
    ensures FileName(File(name)) == name
    ensures FileName(File(name + "/")) == name
  {
    CollapseAppendName([], name);
    assert [] + name == name;
    assert Normalize(name) == name;
    assert name[|name| - 1] != '/';
    CollapseSnoc(name, '/');
    assert Normalize(name + ['/']) == name;
    assert name + "/" == name + ['/'];
  }

  /**
   * `File.getAbsolutePath()`: an absolute path as it is; a relative one
   * resolved against the working directory.
   */
  function AbsolutePath(f: File, workingDirectory: string): string
  {
    var p := Normalize(f.path);
    if |p| > 0 && p[0] == '/' then p
    else if p == "" then workingDirectory
    else if workingDirectory == "/" then workingDirectory + p
    else workingDirectory + "/" + p
  }

  /**
   * `getAbsolutePath` on Unix: the empty path is the working directory, an
   * absolute path is its normalised self whatever the working directory, and
   * a relative path is appended to the working directory after a separator
   * (none is added after the root). With an absolute working directory the
   * result is always absolute.
   */
  lemma AbsolutePathResolves(f: File, workingDirectory: string)
    ensures f.path == [] ==> AbsolutePath(f, workingDirectory) == workingDirectory
    ensures f.path != [] && f.path[0] == '/' ==> AbsolutePath(f, workingDirectory) == Normalize(f.path)
    ensures f.path != [] && f.path[0] != '/' ==>
      AbsolutePath(f, workingDirectory) ==
        (if workingDirectory == "/" then "/" else workingDirectory + "/") + Normalize(f.path)
    ensures workingDirectory != [] && workingDirectory[0] == '/' ==>
      var r := AbsolutePath(f, workingDirectory); r != [] && r[0] == '/'
  {
    if f.path != [] {
      CollapseFirst(f.path);
      assert Normalize(f.path)[0] == f.path[0];
    }
  }

  /** An absolute path of a directory and a name is already normal, and is its own absolute path. */
  lemma NormalizeAbsolute(directory: string, name: string, workingDirectory: string)
    requires directory != [] && '/' !in directory
    requires name != [] && '/' !in name
    ensures Normalize("/" + directory + "/" + name) == "/" + directory + "/" + name
    ensures AbsolutePath(File("/" + directory + "/" + name), workingDirectory) == "/" + directory + "/" + name
  {
    CollapseAppendName("/", directory);
    assert Collapse("/") == "/";
    var d := "/" + directory;
    assert Collapse(d) == d;
    assert (d + "/")[..|d + "/"| - 1] == d;
    assert d[|d| - 1] == directory[|directory| - 1];
    assert Collapse(d + "/") == d + "/";
    CollapseAppendName(d + "/", name);
    assert Collapse(d + "/" + name) == d + "/" + name;
  }
}
