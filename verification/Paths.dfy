/** How the path of one side of a task is put together from root, data source and task. */
module Paths {
  import opened Options
  import opened Sequences
  import opened Text
  import opened FsSpec

  function TrimLeft(s: string): string {
    if s != "" && s[0] == '/' then TrimLeft(s[1..]) else s
  }

  function TrimRight(s: string): string {
    if s != "" && s[|s| - 1] == '/' then TrimRight(s[..|s| - 1]) else s
  }

  predicate OnlySlashes(s: string) {
    forall i :: 0 <= i < |s| ==> s[i] == '/'
  }

  function JoinDSPath(dsPath: string, taskSubpath: string): string {
    var base, sub := TrimRight(dsPath), TrimLeft(taskSubpath);
    if base == "" then sub
    else if sub == "" then base
    else base + "/" + sub
  }

  // A storage source: its type, its path column, and the root entry of its extra parameters.
  datatype Storage = Storage(kind: string, path: Option<string>, extraRoot: Option<string>)

  function LocalFSRoot(s: Storage): string {
    if s.path.Some? && s.path.value != "" then s.path.value
    else if s.extraRoot.Some? && s.extraRoot.value != "" then s.extraRoot.value
    else "/"
  }

  function SidePath(s: Storage, dsPath: string): string {
    if s.kind != "local" then dsPath else JoinDSPath(LocalFSRoot(s), dsPath)
  }

  function DSRemoteName(id: nat): string {
    "ds-" + Decimal(id)
  }

  /** The spec of one side of a task. */
  function ResolveSide(id: nat, s: Storage, dsPath: string, taskPath: string): string {
    DSRemoteName(id) + ":" + JoinDSPath(SidePath(s, dsPath), taskPath)
  }

  // ----- trimming -----

  lemma {:induction false} TrimRightHolds(s: string)
    ensures TrimRight(s) <= s && OnlySlashes(s[|TrimRight(s)|..])
    ensures TrimRight(s) != "" ==> TrimRight(s)[|TrimRight(s)| - 1] != '/'
    ensures TrimRight(s) == "" <==> OnlySlashes(s)
  {
    if s != "" && s[|s| - 1] == '/' {
      var front := s[..|s| - 1];
      TrimRightHolds(front);
      var n := |TrimRight(s)|;
      assert forall i :: 0 <= i < |s[n..]| ==> s[n..][i] == if i < |front| - n then front[n..][i] else '/';
    }
  }

  lemma {:induction false} TrimLeftHolds(s: string)
    ensures TrimLeft(s) == "" <==> OnlySlashes(s)
    ensures TrimLeft(TrimLeft(s)) == TrimLeft(s)
    ensures forall x :: TrimLeft(s) != "" ==> TrimLeft(s + x) == TrimLeft(s) + x
    ensures forall x :: TrimLeft(s) == "" ==> TrimLeft(s + x) == TrimLeft(x)
  {
    if s == "" {
      assert forall x :: s + x == x;
    } else if s[0] == '/' {
      TrimLeftHolds(s[1..]);
      assert forall x :: (s + x)[1..] == s[1..] + x;
    }
  }

  /** A text that ends in something other than a slash is not trimmed, and what precedes it is kept. */
  lemma {:induction false} TrimRightConcat(x: string, s: string)
    ensures TrimRight(x + s) == if OnlySlashes(s) then TrimRight(x) else x + TrimRight(s)
  {
    if s == "" {
      assert x + s == x;
    } else if s[|s| - 1] == '/' {
      assert (x + s)[..|x + s| - 1] == x + s[..|s| - 1];
      TrimRightConcat(x, s[..|s| - 1]);
      assert OnlySlashes(s) <==> OnlySlashes(s[..|s| - 1]);
    }
  }

  /** The two trims do not disturb each other. */
  lemma {:induction false} TrimsCommute(s: string)
    ensures TrimLeft(TrimRight(s)) == TrimRight(TrimLeft(s))
  {
    if s != "" && s[0] == '/' {
      TrimsCommute(s[1..]);
      assert s == "/" + s[1..];
      TrimRightConcat("/", s[1..]);
      TrimRightHolds(s[1..]);
      TrimLeftHolds(s[1..]);
      assert TrimRight("/") == "" by { assert "/"[..0] == ""; }
      if !OnlySlashes(s[1..]) {
        assert ("/" + TrimRight(s[1..]))[1..] == TrimRight(s[1..]);
      }
    } else {
      TrimRightHolds(s);
    }
  }

  // ----- the laws of joining -----

  lemma TrimLeftOfJoin(b: string, c: string)
    ensures TrimLeft(JoinDSPath(b, c)) == JoinDSPath(TrimLeft(b), c)
  {
    TrimsCommute(b);
    TrimRightHolds(b);
    TrimLeftHolds(c);
    TrimLeftHolds(b);
    TrimLeftHolds(TrimRight(b));
    if TrimRight(b) != "" {
      assert TrimRight(b) + "/" + TrimLeft(c) == TrimRight(b) + ("/" + TrimLeft(c));
      assert TrimRight(b)[|TrimRight(b)| - 1] != '/';
      assert TrimLeft(TrimRight(b)) != "";
      assert TrimLeft(TrimRight(b)) + ("/" + TrimLeft(c)) == TrimLeft(TrimRight(b)) + "/" + TrimLeft(c);
    }
  }

  lemma TrimRightOfJoin(a: string, b: string)
    ensures TrimRight(JoinDSPath(a, b)) == JoinDSPath(a, TrimRight(b))
  {
    TrimsCommute(b);
    TrimRightHolds(a);
    TrimLeftHolds(b);
    TrimRightHolds(TrimLeft(b));
    TrimRightConcat(TrimRight(a), "");
    if TrimRight(a) != "" && TrimLeft(b) != "" {
      TrimRightConcat(TrimRight(a) + "/", TrimLeft(b));
      TrimRightHolds(b);
      NotAllSlashes(b);
    }
  }

  lemma NotAllSlashes(s: string)
    ensures OnlySlashes(TrimLeft(s)) <==> TrimLeft(s) == ""
  {
    TrimLeftHolds(s);
    TrimLeftHolds(TrimLeft(s));
  }

  /** Root, data source path and task path may be joined in either grouping. */
  lemma JoinIsAssociative(a: string, b: string, c: string)
    ensures JoinDSPath(JoinDSPath(a, b), c) == JoinDSPath(a, JoinDSPath(b, c))
  {
    TrimRightOfJoin(a, b);
    TrimLeftOfJoin(b, c);
    TrimsCommute(b);
    TrimRightHolds(b);
    TrimLeftHolds(b);
    TrimLeftHolds(TrimRight(b));
    NotAllSlashes(b);
    var x, y, z := TrimRight(a), TrimRight(TrimLeft(b)), TrimLeft(c);
    Associative(x + "/", y, "/" + z);
    Associative(x + "/" + y, "/", z);
    Associative(y, "/", z);
  }

  // ----- what a side resolves to -----

  predicate Under(root: string, path: string) {
    root <= path && (|path| == |root| || path[|root|] == '/')
  }

  lemma JoinIsUnder(a: string, b: string)
    ensures TrimRight(a) != "" ==> Under(TrimRight(a), JoinDSPath(a, b))
    ensures TrimRight(a) == "" ==> JoinDSPath(a, b) == "" || JoinDSPath(a, b)[0] != '/'
  {
    FirstIsNoSlash(b);
  }

  lemma {:induction false} FirstIsNoSlash(s: string)
    ensures TrimLeft(s) == "" || TrimLeft(s)[0] != '/'
  {
    if s != "" && s[0] == '/' {
      FirstIsNoSlash(s[1..]);
    }
  }

  /**
   A local side lies under its root, written without trailing slashes, exactly if the root is more
   than slashes or nothing follows it; a root of slashes alone leaves a path that does not begin
   with one. The path is the root joined with the data source's path joined with the task's.
   */
  lemma LocalSideIsUnderRoot(s: Storage, dsPath: string, taskPath: string)
    requires s.kind == "local"
    ensures var root, path := LocalFSRoot(s), JoinDSPath(SidePath(s, dsPath), taskPath);
            && path == JoinDSPath(root, JoinDSPath(dsPath, taskPath))
            && (Under(TrimRight(root), path) <==> !OnlySlashes(root) || path == "")
            && (OnlySlashes(root) ==> path == "" || path[0] != '/')
  {
    JoinIsAssociative(LocalFSRoot(s), dsPath, taskPath);
    JoinIsUnder(LocalFSRoot(s), JoinDSPath(dsPath, taskPath));
    TrimRightHolds(LocalFSRoot(s));
  }

  /** The spec is a valid remote and the path: a backend option can be attached, and the path survives, colons and all. */
  lemma ResolvedSpecReads(id: nat, s: Storage, dsPath: string, taskPath: string)
    ensures CutAt(ResolveSide(id, s, dsPath, taskPath), ':') == Cut(DSRemoteName(id), JoinDSPath(SidePath(s, dsPath), taskPath))
    ensures ValidRemoteName(DSRemoteName(id))
  {
    var name := DSRemoteName(id);
    assert name[..3] == "ds-" && name[3..] == Decimal(id);
    assert forall i :: 3 <= i < |name| ==> name[i] == Decimal(id)[i - 3];
    assert forall i :: 0 <= i < 3 ==> name[i] == "ds-"[i];
    assert ':' !in name;
    CutAtFirst(name, ':', JoinDSPath(SidePath(s, dsPath), taskPath));
  }

  // ----- the paths themselves -----

  /** Slashes around the joint are replaced by one; a part that is nothing but slashes leaves the other one alone. */
  lemma JoinedPath(x: string, slashes: string, more: string, y: string)
    requires OnlySlashes(slashes) && OnlySlashes(more)
    requires (x == "" || x[|x| - 1] != '/') && (y == "" || y[0] != '/')
    ensures JoinDSPath(x + slashes, more + y) == if x == "" then y else if y == "" then x else x + "/" + y
  {
    TrimRightConcat(x, slashes);
    TrimLeftHolds(more);
    assert TrimLeft(more) == "";
    assert TrimLeft(more + y) == TrimLeft(y) == y;
  }

  /** The root of a local storage: its path column, else its extra root, else the root of the file system. */
  lemma RootsAre(s: Storage)
    ensures s.path != None && s.path.value != "" ==> LocalFSRoot(s) == s.path.value
    ensures (s.path == None || s.path.value == "") && s.extraRoot != None && s.extraRoot.value != "" ==>
              LocalFSRoot(s) == s.extraRoot.value
    ensures (s.path == None || s.path.value == "") && (s.extraRoot == None || s.extraRoot.value == "") ==>
              LocalFSRoot(s) == "/"
  {
  }

  /**
   The spec of a side: remote, colon, and the joined path; a local source's root goes in front of it, and that of no
   other one.
   */
  lemma SpecsAre(id: nat, s: Storage, dsPath: string, taskPath: string)
    ensures s.kind != "local" ==>
              ResolveSide(id, s, dsPath, taskPath) == "ds-" + Decimal(id) + ":" + JoinDSPath(dsPath, taskPath)
    ensures s.kind == "local" ==>
              ResolveSide(id, s, dsPath, taskPath)
              == "ds-" + Decimal(id) + ":" + JoinDSPath(LocalFSRoot(s), JoinDSPath(dsPath, taskPath))
  {
    JoinIsAssociative(LocalFSRoot(s), dsPath, taskPath);
  }
}
