/** Relative paths as the plugin code takes them: which are safe, and which file they lead to. */
module PluginPaths {
  import opened Texts

  /** Whether a component of the path starts at `i`, and whether it is `name`. */
  predicate ComponentAt(path: string, i: nat, name: string) {
    && (i == 0 || (i <= |path| && path[i - 1] == '/'))
    && i + |name| <= |path| && path[i..i + |name|] == name
    && (i + |name| == |path| || path[i + |name|] == '/')
  }

  /** Relative, without `..` and without a leading `.`: every component is an ordinary name. */
  predicate SafePath(path: string) {
    path == "" ||
    (path[0] != '/' && !ComponentAt(path, 0, ".") && forall i | 0 <= i < |path| :: !ComponentAt(path, i, ".."))
  }

  predicate SingleComponent(name: string) {
    name != "" && name != "." && name != ".." && '/' !in name
  }

  lemma SingleComponentIsSafe(name: string)
    requires SingleComponent(name)
    ensures SafePath(name)
  {
    assert 1 < |name| ==> name[1] in name && name[0..1] != name;
    assert |name| == 1 ==> name[0..1] == name;
    assert |name| == 2 ==> name[0..2] == name;
    forall i | 0 <= i < |name| ensures !ComponentAt(name, i, "..") {
      assert i > 0 ==> name[i - 1] in name;
      assert 2 < |name| ==> name[2] in name;
    }
  }

  /** The file a relative path leads to: empty and `.` components do not count. */
  function Location(path: string): seq<string> {
    Steps(SplitOn({'/'}, path))
  }

  function Steps(parts: seq<string>): seq<string> {
    if parts == [] then []
    else if parts[0] == "" || parts[0] == "." then Steps(parts[1..])
    else [parts[0]] + Steps(parts[1..])
  }

  /** A name under which a file can be created: it does not end like the name of a directory. */
  predicate NamesFile(path: string) {
    var parts := SplitOn({'/'}, path);
    parts[|parts| - 1] != "" && parts[|parts| - 1] != "."
  }

  lemma {:induction false} SplitWithout(sep: char, s: string)
    requires sep !in s
    ensures SplitOn({sep}, s) == [s]
  {
    if s != "" {
      SplitWithout(sep, s[1..]);
      assert s == [s[0]] + s[1..];
    }
  }

  /** The first part reaches to the first separator. */
  lemma {:induction false} FirstPart(sep: char, s: string)
    ensures var p := SplitOn({sep}, s)[0];
      |p| <= |s| && s[..|p|] == p && (|p| == |s| || s[|p|] == sep)
  {
    if s != "" && s[0] != sep {
      FirstPart(sep, s[1..]);
      var p := SplitOn({sep}, s[1..])[0];
      assert s[..|p| + 1] == [s[0]] + s[1..][..|p|];
    }
  }

  lemma {:induction false} FirstPartHasNoSlash(s: string)
    ensures '/' !in SplitOn({'/'}, s)[0]
  {
    if s != "" && s[0] != '/' {
      FirstPartHasNoSlash(s[1..]);
    }
  }

  /** The component at the start of a path is its first part. */
  lemma StartsWithPart(s: string, name: string)
    requires '/' !in name
    ensures ComponentAt(s, 0, name) <==> SplitOn({'/'}, s)[0] == name
  {
    var p := SplitOn({'/'}, s)[0];
    FirstPart('/', s);
    FirstPartHasNoSlash(s);
    assert |name| < |p| ==> p[|name|] in p && s[|name|] == p[|name|];
    assert |p| < |name| ==> name[|p|] in name;
    if ComponentAt(s, 0, name) {
      assert s[0..|name|] == name == s[..|name|];
    }
    assert s[0..|p|] == s[..|p|];
  }

  lemma ShiftedComponent(s: string, i: nat, name: string)
    requires s != ""
    ensures ComponentAt(s, i + 1, name) <==> (i == 0 ==> s[0] == '/') && ComponentAt(s[1..], i, name)
  {
    var t, n := s[1..], |name|;
    if i + n <= |t| {
      var a, b := s[i + 1..i + 1 + n], t[i..i + n];
      assert |a| == |b| && forall k :: 0 <= k < n ==> a[k] == b[k];
      assert a == b;
    }
  }

  /** The other components are the other parts. */
  lemma {:induction false} GoesOnWithPart(s: string, name: string)
    requires '/' !in name
    ensures (exists i: nat :: i > 0 && ComponentAt(s, i, name)) <==> name in SplitOn({'/'}, s)[1..]
  {
    if s != "" {
      var t := s[1..];
      GoesOnWithPart(t, name);
      StartsWithPart(t, name);
      var parts := SplitOn({'/'}, t);
      assert parts == [parts[0]] + parts[1..];
      forall i: nat ensures ComponentAt(s, i + 1, name) <==> (i == 0 ==> s[0] == '/') && ComponentAt(t, i, name) {
        ShiftedComponent(s, i, name);
      }
      forall i: nat | i > 0 && ComponentAt(s, i, name) ensures name in SplitOn({'/'}, s)[1..] {
        assert ComponentAt(s, (i - 1) + 1, name);
        assert ComponentAt(t, i - 1, name);
        assert SplitOn({'/'}, s)[1..] == if s[0] == '/' then parts else parts[1..];
      }
      if name in SplitOn({'/'}, s)[1..] {
        if name in parts[1..] {
          var i: nat :| i > 0 && ComponentAt(t, i, name);
          assert ComponentAt(s, i + 1, name);
        } else {
          assert ComponentAt(s, 0 + 1, name);
        }
      }
    }
  }

  /** A path is safe exactly if it is empty, or relative with neither `.` as its first part nor `..` as any. */
  lemma SafeByParts(path: string)
    ensures SafePath(path) <==>
      path == "" || (path[0] != '/' && SplitOn({'/'}, path)[0] != "." && ".." !in SplitOn({'/'}, path))
  {
    if path != "" {
      var parts := SplitOn({'/'}, path);
      assert parts == [parts[0]] + parts[1..];
      StartsWithPart(path, ".");
      StartsWithPart(path, "..");
      GoesOnWithPart(path, "..");
      forall i: nat | ComponentAt(path, i, "..") ensures i < |path| {
      }
    }
  }

  lemma {:induction false} StepsKeepEnds(parts: seq<string>)
    requires parts != [] && parts[|parts| - 1] != "" && parts[|parts| - 1] != "."
    ensures Steps(parts) != []
    ensures |parts| > 1 && parts[0] != "" && parts[0] != "." ==> |Steps(parts)| > 1
  {
    if |parts| > 1 {
      StepsKeepEnds(parts[1..]);
    }
  }

  lemma {:induction false} OnePart(sep: char, s: string)
    requires |SplitOn({sep}, s)| == 1
    ensures SplitOn({sep}, s) == [s]
  {
    if s != "" {
      OnePart(sep, s[1..]);
      assert s == [s[0]] + s[1..];
    }
  }

  /** Only one name leads to a file at the top of the directory. */
  lemma TopLevelNameIsUnique(name: string, path: string)
    requires SingleComponent(name) && path != "" && SafePath(path) && NamesFile(path)
    ensures Location(name) == [name]
    ensures Location(path) == [name] <==> path == name
  {
    SplitWithout('/', name);
    assert Steps([]) == [];
    assert Location(name) == [name];
    var parts := SplitOn({'/'}, path);
    FirstPart('/', path);
    assert parts[0] != "" && parts[0] != "." by {
      assert path[0] != '/';
      assert !ComponentAt(path, 0, ".");
    }
    if Location(path) == [name] {
      StepsKeepEnds(parts);
      assert |parts| == 1;
      OnePart('/', path);
    }
  }
}
