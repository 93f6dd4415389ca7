/**
 The descriptor resolver of the QNX branch of `get_fs_usage`: the path is
 opened read-only, and while the open fails because the entry does not exist
 the candidate is shortened by one component and tried again, until a
 candidate that cannot be shortened has been tried.

 A Dafny `string` stands for the characters of the C string before its
 terminating NUL. The `open` system call is an oracle parameter.
 */
module Resolver {

  /** What one read-only open of a candidate reports: a descriptor, failure
      because the entry does not exist (ENOENT), or failure for any other
      reason. */
  datatype OpenReply = Opened(fd: nat) | NoEntry | OtherError

  /** A candidate the loop tries last instead of shortening: "/", ".", the
      empty string, and the QNX "//node" form (two leading slashes and no
      further slash; the node part is not checked to be digits). */
  predicate IsTerminal(p: string)
  {
    || p == "/"
    || p == "."
    || p == ""
    || (|p| >= 2 && p[..2] == "//" && '/' !in p[2..])
  }

  /** The index of the last '/' in `p`, or -1 when there is none (`strrchr`). */
  function LastSlash(p: string): (i: int)
    ensures -1 <= i < |p|
    ensures 0 <= i ==> p[i] == '/'
    ensures forall j :: i < j < |p| ==> p[j] != '/'
  {
    if |p| == 0 then -1
    else if p[|p| - 1] == '/' then |p| - 1
    else LastSlash(p[..|p| - 1])
  }

  /** The next candidate after `p`: "." when `p` has no slash, "/" when its
      only slash leads it, and otherwise `p` cut just before its last slash. */
  function Shorten(p: string): (q: string)
    ensures '/' !in p ==> q == "."
    ensures '/' in p && (forall j :: 0 < j < |p| ==> p[j] != '/') ==> q == "/"
    ensures (exists j :: 0 < j < |p| && p[j] == '/') ==>
              && 0 < |q| < |p|
              && q == p[..|q|]
              && p[|q|] == '/'
              && (forall j :: |q| < j < |p| ==> p[j] != '/')
  {
    var i := LastSlash(p);
    if i < 0 then "." else if i == 0 then "/" else p[..i]
  }

  /** How far a candidate is from the end of the loop: zero for a terminal
      candidate, its length otherwise. */
  function Measure(p: string): nat
  {
    if IsTerminal(p) then 0 else |p|
  }

  /** Every shortening step lands on a terminal candidate or on a strictly
      shorter string, so the measure drops. Shortening "a" gives "." and
      does not shorten the string, but "." is terminal. */
  lemma ShortenProgress(p: string)
    requires !IsTerminal(p)
    ensures IsTerminal(Shorten(p)) || |Shorten(p)| < |p|
    ensures Measure(Shorten(p)) < Measure(p)
  {
    var q := Shorten(p);
    var i := LastSlash(p);
    if i < 0 {
      assert q == ".";
    } else if i == 0 {
      assert q == "/";
    } else {
      assert |q| == i < |p|;
    }
  }

  /** The outcome of the loop: the reply of the last open, the candidate it
      was made on, and every candidate tried, in order. */
  datatype Resolution = Resolution(reply: OpenReply, zpath: string, tried: seq<string>)

  /** Runs the shortening loop against the oracle `open`. It goes on
      only while the open reports ENOENT on a candidate that can be shortened;
      any other error, a success, or ENOENT on a terminal candidate ends it. */
  function Resolve(open: string -> OpenReply, p: string): (r: Resolution)
    ensures |r.tried| >= 1 && r.tried[0] == p && r.tried[|r.tried| - 1] == r.zpath
    ensures r.reply == open(r.zpath)
    ensures r.reply.NoEntry? ==> IsTerminal(r.zpath)
    ensures forall i :: 0 <= i < |r.tried| - 1 ==>
              && open(r.tried[i]).NoEntry?
              && !IsTerminal(r.tried[i])
              && r.tried[i + 1] == Shorten(r.tried[i])
    ensures forall i :: 0 < i < |r.tried| ==> Measure(r.tried[i]) < Measure(p)
    ensures forall i, j :: 0 <= i < j < |r.tried| ==> r.tried[i] != r.tried[j]
    ensures |r.tried| <= Measure(p) + 1 <= |p| + 1
    decreases Measure(p)
  {
    var o := open(p);
    if !o.NoEntry? || IsTerminal(p) then
      Resolution(o, p, [p])
    else
      ShortenProgress(p);
      var rest := Resolve(open, Shorten(p));
      Resolution(rest.reply, rest.zpath, [p] + rest.tried)
  }

  /** The loop as the C code writes it, over a mutable candidate: it opens
      the same candidates, in the same order, as `Resolve` describes, at most
      one more than the length of the path. */
  method OpenAncestor(open: string -> OpenReply, path: string)
    returns (o: OpenReply, zpath: string, tried: seq<string>)
    ensures Resolution(o, zpath, tried) == Resolve(open, path)
    ensures |tried| <= |path| + 1
  {
    ghost var whole := Resolve(open, path);
    zpath := path;
    tried := [];
    o := OtherError;
    while true
      invariant |tried| < |whole.tried|
      invariant tried == whole.tried[..|tried|]
      invariant zpath == whole.tried[|tried|]
      decreases |whole.tried| - |tried|
    {
      o := open(zpath);
      if !o.NoEntry? || IsTerminal(zpath) {
        // Only the last candidate of the trace can end the loop.
        assert |tried| == |whole.tried| - 1;
        tried := tried + [zpath];
        break;
      }
      // ENOENT on a candidate that can be shortened is never the trace's end.
      assert |tried| < |whole.tried| - 1;
      assert whole.tried[..|tried| + 1] == tried + [zpath];
      tried := tried + [zpath];
      zpath := Shorten(zpath);
    }
  }

  /** A terminal candidate is tried once and never shortened, whatever the
      open reports; "/" in particular ends the loop at once. */
  lemma TerminalTriedOnce(open: string -> OpenReply, p: string)
    requires IsTerminal(p)
    ensures Resolve(open, p).tried == [p]
    ensures Resolve(open, p).reply == open(p)
  {
  }

  /** When nothing along "a/b/c" exists but the current directory opens, the
      loop tries "a/b/c", "a/b", "a" and then ".". */
  lemma FallsBackToCurrentDirectory(open: string -> OpenReply, fd: nat)
    requires open("a/b/c") == NoEntry && open("a/b") == NoEntry && open("a") == NoEntry
    requires open(".") == Opened(fd)
    ensures Resolve(open, "a/b/c").tried == ["a/b/c", "a/b", "a", "."]
    ensures Resolve(open, "a/b/c").reply == Opened(fd)
  {
    ShortenSteps();
    var r3 := Resolve(open, ".");
    assert r3.tried == ["."] && r3.reply == Opened(fd);
    var r2 := Resolve(open, "a");
    assert r2.tried == ["a", "."] && r2.reply == Opened(fd);
    var r1 := Resolve(open, "a/b");
    assert r1.tried == ["a/b", "a", "."] && r1.reply == Opened(fd);
  }

  /** The shortening chain of "a/b/c". */
  lemma ShortenSteps()
    ensures Shorten("a/b/c") == "a/b" && Shorten("a/b") == "a" && Shorten("a") == "."
    ensures !IsTerminal("a/b/c") && !IsTerminal("a/b") && !IsTerminal("a") && IsTerminal(".")
  {
    assert Shorten("a/b/c") == "a/b" by {
      assert "a/b/c"[4] != '/' && "a/b/c"[3] == '/';
      assert LastSlash("a/b/c") == 3;
    }
    assert Shorten("a/b") == "a" by {
      assert "a/b"[2] != '/' && "a/b"[1] == '/';
      assert LastSlash("a/b") == 1;
    }
    assert Shorten("a") == "." by {
      assert "a"[0] != '/';
    }
    assert !IsTerminal("a") && !IsTerminal("a/b") by {
      assert "a/b"[..2] != "//";
    }
    assert !IsTerminal("a/b/c") by {
      assert "a/b/c"[..2] != "//";
    }
  }

  /** The QNX node-root form: "//2" is tried last, and a missing path below
      it shortens to it; the node part need not be digits. */
  lemma NodeRootStopsShortening()
    ensures IsTerminal("//2") && IsTerminal("//node")
    ensures !IsTerminal("//2/tmp") && Shorten("//2/tmp") == "//2"
  {
    assert "//2"[..2] == "//" && '/' !in "//2"[2..];
    assert "//node"[..2] == "//" && '/' !in "//node"[2..];
    assert "//2/tmp"[2..][1] == '/';
    assert Shorten("//2/tmp") == "//2" by {
      assert "//2/tmp"[3] == '/';
      assert forall j :: 3 < j < 7 ==> "//2/tmp"[j] != '/';
      assert LastSlash("//2/tmp") == 3;
    }
  }
}
