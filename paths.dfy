/**
 * Unix path syntax as Rust's std::path sees it: a path string is split into
 * components, and Path::parent drops the last one.
 */
module Paths {
  import opened Wrappers

  /** One component of a path, as std::path::Component on Unix. */
  datatype Component = RootDir | CurDir | ParentDir | Normal(name: string)

  /** Splits `s` at every '/'; empty pieces stand for repeated or trailing separators. */
  function Split(s: string): (pieces: seq<string>)
    ensures |pieces| >= 1
    ensures forall i :: 0 <= i < |pieces| ==> '/' !in pieces[i]
    ensures |pieces[0]| <= |s| && pieces[0] == s[..|pieces[0]|]
    ensures |pieces[0]| < |s| ==> s[|pieces[0]|] == '/'
  {
    if s == [] then [[]]
    else
      var rest := Split(s[1..]);
      if s[0] == '/' then [[]] + rest
      else [[s[0]] + rest[0]] + rest[1..]
  }

  /** Puts the pieces back together with '/' between them. */
  function Join(pieces: seq<string>): string
    requires |pieces| >= 1
  {
    if |pieces| == 1 then pieces[0] else pieces[0] + "/" + Join(pieces[1..])
  }

  /** Splitting loses nothing: joining the pieces gives back the string. */
  lemma {:induction false} JoinSplit(s: string)
    ensures Join(Split(s)) == s
  {
    if s != [] {
      var rest := Split(s[1..]);
      JoinSplit(s[1..]);
      if s[0] == '/' {
        assert Split(s) == [[]] + rest;
        assert Join(Split(s)) == [] + "/" + Join(rest);
      } else {
        var pieces := Split(s);
        assert pieces == [[s[0]] + rest[0]] + rest[1..];
        if |rest| == 1 {
          assert Join(pieces) == [s[0]] + rest[0];
        } else {
          assert pieces[1..] == rest[1..];
          assert Join(pieces) == [s[0]] + rest[0] + "/" + Join(rest[1..]);
        }
      }
    }
  }

  /** A string without a separator is a single piece. */
  lemma {:induction false} SplitWithoutSeparator(s: string)
    requires '/' !in s
    ensures Split(s) == [s]
  {
    if s != [] {
      SplitWithoutSeparator(s[1..]);
      assert [s[0]] + s[1..] == s;
    }
  }

  /** The first separator ends the first piece. */
  lemma {:induction false} SplitAtSeparator(a: string, b: string)
    requires '/' !in a
    ensures Split(a + "/" + b) == [a] + Split(b)
  {
    if a == [] {
      assert a + "/" + b == "/" + b;
      assert ("/" + b)[1..] == b;
    } else {
      assert (a + "/" + b)[1..] == a[1..] + "/" + b;
      SplitAtSeparator(a[1..], b);
      assert [a[0]] + a[1..] == a;
    }
  }

  /** The component a piece between separators contributes: none for "" and ".". */
  function NameOf(piece: string): seq<Component>
  {
    if piece == "" || piece == "." then []
    else if piece == ".." then [ParentDir]
    else [Normal(piece)]
  }

  /** The components of the pieces after the first position of a path. */
  function Names(pieces: seq<string>): (cs: seq<Component>)
    ensures forall i :: 0 <= i < |cs| ==> cs[i] != RootDir && cs[i] != CurDir
    ensures cs == [] <==> forall i :: 0 <= i < |pieces| ==> pieces[i] == "" || pieces[i] == "."
  {
    if pieces == [] then []
    else
      var rest := Names(pieces[1..]);
      assert forall i :: 1 <= i < |pieces| ==> pieces[i] == pieces[1..][i - 1];
      NameOf(pieces[0]) + rest
  }

  /**
   * Path::components on Unix: a leading '/' is RootDir, a leading "." of a
   * relative path is CurDir, every other "." and every empty piece is skipped.
   */
  function Components(p: string): (cs: seq<Component>)
    ensures forall i :: 0 < i < |cs| ==> cs[i] != RootDir && cs[i] != CurDir
    ensures cs == [] <==> p == ""
  {
    if |p| > 0 && p[0] == '/' then
      [RootDir] + Names(Split(p[1..]))
    else if p == "." || (|p| >= 2 && p[..2] == "./") then
      [CurDir] + Names(Split(p[1..]))
    else
      Names(Split(p))
  }

  /**
   * Path::parent: None for a path without components or one that ends in the
   * root, otherwise the path without its last component.
   */
  function Parent(p: string): (r: Option<seq<Component>>)
    ensures r.None? <==> p == "" || Components(p) == [RootDir]
    ensures r.Some? ==> r.value == Components(p)[..|Components(p)| - 1]
  {
    var cs := Components(p);
    if cs == [] || cs[|cs| - 1] == RootDir then None else Some(cs[..|cs| - 1])
  }

  /** The location the operating system looks up for some components: "." names the directory it is in. */
  function Resolve(cs: seq<Component>): (loc: seq<Component>)
    ensures |loc| <= |cs|
    ensures forall i :: 0 <= i < |loc| ==> loc[i] != CurDir
  {
    if cs == [] then []
    else Resolve(cs[..|cs| - 1]) + (if cs[|cs| - 1] == CurDir then [] else [cs[|cs| - 1]])
  }

  /** Components without "." are their own location. */
  lemma {:induction false} ResolveWithoutCurDir(cs: seq<Component>)
    requires forall i :: 0 <= i < |cs| ==> cs[i] != CurDir
    ensures Resolve(cs) == cs
  {
    if cs != [] {
      ResolveWithoutCurDir(cs[..|cs| - 1]);
    }
  }

  /** The location a path string names. */
  function Target(p: string): seq<Component>
  {
    Resolve(Components(p))
  }

  /**
   * The path text ends in a separator or in "/." (or is "."): components drop
   * that ending, but a lookup of the text itself only succeeds on a directory.
   */
  predicate DemandsDirectory(p: string)
  {
    var pieces := Split(p);
    p != "" && (pieces[|pieces| - 1] == "" || pieces[|pieces| - 1] == ".")
  }

  /** The two locations that are always directories: the working directory and "/". */
  predicate IsRoot(loc: seq<Component>)
  {
    loc == [] || loc == [RootDir]
  }

  /** The enclosing location, dropping the last component. */
  function Up(loc: seq<Component>): seq<Component>
    requires loc != []
  {
    loc[..|loc| - 1]
  }

  /** The parent Path::parent computes names the directory that holds the path's target. */
  lemma {:induction false} TargetUnderParent(p: string)
    requires Parent(p).Some?
    ensures Resolve(Parent(p).value) == if Target(p) == [] then [] else Up(Target(p))
  {
    var cs := Components(p);
    var n := |cs|;
    assert cs[..n - 1] == Parent(p).value;
    if cs[n - 1] == CurDir {
      assert n == 1;
      assert Resolve(cs[..0]) == [];
    } else {
      assert Target(p) == Resolve(cs[..n - 1]) + [cs[n - 1]];
    }
  }

  /** "/" is the root alone. */
  lemma RootComponents()
    ensures Components("/") == [RootDir]
  {
    assert "/"[1..] == "";
    assert Split("") == [[]];
  }

  /** "." is the current directory alone. */
  lemma DotComponents()
    ensures Components(".") == [CurDir]
  {
    assert "."[1..] == "";
    assert Split("") == [[]];
  }

  /** The empty path names the working directory and "/" names the root. */
  lemma EmptyAndRootTargets()
    ensures Target("") == [] && Parent("") == None
    ensures Target("/") == [RootDir] && Parent("/") == None
    ensures Components(".") == [CurDir] && Target(".") == [] && Parent(".") == Some([])
  {
    RootComponents();
    DotComponents();
    assert Resolve([CurDir]) == Resolve([]) + [];
    assert Resolve([RootDir]) == Resolve([]) + [RootDir];
  }

  /** A single name without separators is one Normal component. */
  lemma {:induction false} SingleName(s: string)
    requires '/' !in s && s != "" && s != "." && s != ".."
    ensures Components(s) == [Normal(s)]
    ensures Target(s) == [Normal(s)]
    ensures !DemandsDirectory(s)
  {
    SplitWithoutSeparator(s);
    assert Names([s]) == NameOf(s) + Names([]);
    assert Resolve([Normal(s)]) == Resolve([]) + [Normal(s)];
  }

  /** The components of `dir/name` for two plain names. */
  lemma {:induction false} TwoNames(dir: string, name: string)
    requires '/' !in dir && dir != "" && dir != "." && dir != ".."
    requires '/' !in name && name != "" && name != "." && name != ".."
    ensures Names(Split(dir + "/" + name)) == [Normal(dir), Normal(name)]
  {
    SplitAtSeparator(dir, name);
    SplitWithoutSeparator(name);
    assert [dir] + [name] == [dir, name];
    assert [dir, name][1..] == [name];
    assert Names([name]) == NameOf(name) + Names([]);
  }

  /** A path that starts with a plain name is relative and does not start with ".". */
  lemma {:induction false} StartsWithName(name: string, rest: string)
    requires '/' !in name && name != "" && name != "."
    ensures var p := name + rest;
      Components(p) == Names(Split(p))
  {
    var p := name + rest;
    assert p[0] == name[0] && p[0] != '/';
    if |name| == 1 {
      assert name[0] != '.';
    } else {
      assert p[1] == name[1] && name[1] != '/';
    }
  }

  /** "name/" is the single name, with an ending that demands a directory; its parent is "". */
  lemma {:induction false} TrailingSeparator(name: string)
    requires '/' !in name && name != "" && name != "." && name != ".."
    ensures var p := name + "/";
      Components(p) == [Normal(name)]
      && Target(p) == [Normal(name)]
      && Parent(p) == Some([])
      && DemandsDirectory(p)
  {
    var p := name + "/";
    SplitAtSeparator(name, "");
    assert p == name + "/" + "";
    var pieces := [name] + Split("");
    assert Split(p) == pieces;
    assert pieces == [name, ""];
    StartsWithName(name, "/");
    assert Names([""]) == [];
    assert Names([name, ""]) == NameOf(name) + Names([""]);
    assert Resolve([Normal(name)]) == Resolve([]) + [Normal(name)];
  }

  /** The pieces of "/dir/name". */
  lemma AbsoluteSplit(dir: string, name: string)
    requires '/' !in dir && '/' !in name
    ensures Split("/" + dir + "/" + name) == ["", dir, name]
  {
    var p := "/" + dir + "/" + name;
    assert p == "" + "/" + (dir + "/" + name);
    SplitAtSeparator("", dir + "/" + name);
    SplitAtSeparator(dir, name);
    SplitWithoutSeparator(name);
    assert Split(p) == [""] + ([dir] + [name]);
  }

  /** "/dir/name" is the root, then two names; its parent is "/dir". */
  lemma {:induction false} AbsoluteTwoNames(dir: string, name: string)
    requires '/' !in dir && dir != "" && dir != "." && dir != ".."
    requires '/' !in name && name != "" && name != "." && name != ".."
    ensures var p := "/" + dir + "/" + name;
      Components(p) == [RootDir, Normal(dir), Normal(name)]
      && Target(p) == [RootDir, Normal(dir), Normal(name)]
      && Parent(p) == Some([RootDir, Normal(dir)])
      && !DemandsDirectory(p)
  {
    var p := "/" + dir + "/" + name;
    assert p[1..] == dir + "/" + name;
    TwoNames(dir, name);
    AbsoluteSplit(dir, name);
    var cs := [RootDir, Normal(dir), Normal(name)];
    assert Components(p) == cs;
    assert cs[..2] == [RootDir, Normal(dir)];
    ResolveWithoutCurDir(cs);
  }

  /** "dir/name" is two names; its parent is "dir". */
  lemma {:induction false} RelativeTwoNames(dir: string, name: string)
    requires '/' !in dir && dir != "" && dir != "." && dir != ".."
    requires '/' !in name && name != "" && name != "." && name != ".."
    ensures var p := dir + "/" + name;
      Components(p) == [Normal(dir), Normal(name)]
      && Target(p) == [Normal(dir), Normal(name)]
      && Parent(p) == Some([Normal(dir)])
      && !DemandsDirectory(p)
  {
    var p := dir + "/" + name;
    TwoNames(dir, name);
    SplitAtSeparator(dir, name);
    SplitWithoutSeparator(name);
    assert Split(p) == [dir] + [name];
    assert p[0] == dir[0] && p[0] != '/';
    assert !(|p| >= 2 && p[..2] == "./") by {
      if |dir| == 1 {
        assert dir != ".";
        assert dir[0] != '.';
      } else {
        assert p[1] == dir[1] && dir[1] != '/';
      }
    }
    var cs := [Normal(dir), Normal(name)];
    assert Components(p) == cs;
    assert cs[..1] == [Normal(dir)];
    ResolveWithoutCurDir(cs);
  }
}
