/**
 * The last component of a Unix path, as Rust's `Path::file_name` computes it.
 * The library code of `file_name` is not part of this model; its behaviour on
 * `/`-separated byte strings is taken as the following assumption:
 *   - the path is split at every `/`;
 *   - empty pieces (from `//`, a leading or a trailing `/`) and `.` pieces are
 *     not components that can end a path;
 *   - the last remaining piece is the file name, unless it is `..`;
 *   - when no piece remains, or the last one is `..`, there is no file name.
 */
module PathName {
  import opened Bytes

  /** The pieces of `p` between separators, in order; `p` with n separators has n + 1 pieces. */
  function Segments(p: seq<byte>): (segs: seq<seq<byte>>)
    ensures |segs| >= 1
    ensures forall i :: 0 <= i < |segs| ==> SLASH !in segs[i]
    decreases |p|
  {
    if |p| == 0 then [[]]
    else
      var rest := Segments(p[1..]);
      if p[0] == SLASH then [[]] + rest
      else [[p[0]] + rest[0]] + rest[1..]
  }

  /** The pieces put back together with one separator between neighbours. */
  function Join(segs: seq<seq<byte>>): seq<byte>
    requires |segs| >= 1
    decreases |segs|
  {
    if |segs| == 1 then segs[0]
    else segs[0] + [SLASH] + Join(segs[1..])
  }

  /** Splitting loses nothing: joining the pieces gives the path back. */
  lemma {:induction false} JoinSegments(p: seq<byte>)
    ensures Join(Segments(p)) == p
    decreases |p|
  {
    if |p| > 0 {
      var rest := Segments(p[1..]);
      JoinSegments(p[1..]);
      if p[0] == SLASH {
        assert Segments(p) == [[]] + rest;
        assert ([[]] + rest)[1..] == rest;
        assert p == [SLASH] + p[1..];
      } else {
        var segs := [[p[0]] + rest[0]] + rest[1..];
        assert Segments(p) == segs;
        if |rest| == 1 {
          assert p == [p[0]] + p[1..];
        } else {
          assert segs[1..] == rest[1..];
          assert Join(rest) == rest[0] + [SLASH] + Join(rest[1..]);
          assert p == [p[0]] + p[1..];
        }
      }
    }
  }

  /** A piece without separators is a single segment. */
  lemma {:induction false} SegmentsOfPiece(s: seq<byte>)
    requires SLASH !in s
    ensures Segments(s) == [s]
    decreases |s|
  {
    if |s| > 0 {
      assert SLASH !in s[1..] by {
        forall i | 0 <= i < |s[1..]| ensures s[1..][i] != SLASH {
          assert s[1..][i] == s[i + 1];
        }
      }
      SegmentsOfPiece(s[1..]);
      assert [s[0]] + s[1..] == s;
    }
  }

  /** How the first byte of a path extends its segments. */
  lemma SegmentsCons(c: byte, q: seq<byte>)
    ensures Segments([c] + q) ==
      if c == SLASH then [[]] + Segments(q) else [[c] + Segments(q)[0]] + Segments(q)[1..]
  {
  }

  /** A separator-free piece, a separator, then anything: the piece is the first segment. */
  lemma {:induction false} SegmentsAfterPiece(a: seq<byte>, b: seq<byte>)
    requires SLASH !in a
    ensures Segments(a + [SLASH] + b) == [a] + Segments(b)
    decreases |a|
  {
    if |a| == 0 {
      assert a + [SLASH] + b == [SLASH] + b;
      SegmentsCons(SLASH, b);
    } else {
      var q := a[1..] + [SLASH] + b;
      assert SLASH !in a[1..] by {
        forall i | 0 <= i < |a[1..]| ensures a[1..][i] != SLASH {
          assert a[1..][i] == a[i + 1];
        }
      }
      SegmentsAfterPiece(a[1..], b);
      assert a + [SLASH] + b == [a[0]] + q;
      SegmentsCons(a[0], q);
      assert [a[0]] + a[1..] == a;
    }
  }

  /** Joining two non-empty lists of pieces puts one separator between their joins. */
  lemma {:induction false} JoinAppend(s1: seq<seq<byte>>, s2: seq<seq<byte>>)
    requires |s1| >= 1 && |s2| >= 1
    ensures Join(s1 + s2) == Join(s1) + [SLASH] + Join(s2)
    decreases |s1|
  {
    if |s1| == 1 {
      assert (s1 + s2)[1..] == s2;
    } else {
      assert (s1 + s2)[1..] == s1[1..] + s2;
      JoinAppend(s1[1..], s2);
    }
  }

  /** Splitting separator-free pieces joined with separators gives the pieces back. */
  lemma {:induction false} SegmentsJoin(segs: seq<seq<byte>>)
    requires |segs| >= 1
    requires forall i :: 0 <= i < |segs| ==> SLASH !in segs[i]
    ensures Segments(Join(segs)) == segs
    decreases |segs|
  {
    if |segs| == 1 {
      SegmentsOfPiece(segs[0]);
    } else {
      SegmentsJoin(segs[1..]);
      SegmentsAfterPiece(segs[0], Join(segs[1..]));
      assert [segs[0]] + segs[1..] == segs;
    }
  }

  /** A separator between two strings separates their segments. */
  lemma SegmentsAppend(a: seq<byte>, b: seq<byte>)
    ensures Segments(a + [SLASH] + b) == Segments(a) + Segments(b)
  {
    var sa, sb := Segments(a), Segments(b);
    JoinSegments(a);
    JoinSegments(b);
    JoinAppend(sa, sb);
    SegmentsJoin(sa + sb);
  }

  /** A piece that can be the final component of a path: not empty and not `.`. */
  predicate Named(s: seq<byte>)
  {
    s != [] && s != [DOT]
  }

  /** A file name proper: one non-empty component that is neither `.` nor `..`. */
  predicate IsFileName(s: seq<byte>)
  {
    Named(s) && SLASH !in s && s != [DOT, DOT]
  }

  /** The last piece that is neither empty nor `.`. */
  function LastNamed(segs: seq<seq<byte>>): (r: Option<seq<byte>>)
    ensures r.Some? ==> Named(r.value) && r.value in segs
    ensures r.None? <==> forall i :: 0 <= i < |segs| ==> !Named(segs[i])
    decreases |segs|
  {
    if |segs| == 0 then None
    else if Named(segs[|segs| - 1]) then Some(segs[|segs| - 1])
    else
      var r := LastNamed(segs[..|segs| - 1]);
      assert forall i :: 0 <= i < |segs| - 1 ==> segs[..|segs| - 1][i] == segs[i];
      r
  }

  /** `Path::new(p).file_name()` on Unix. */
  function FileName(p: seq<byte>): (r: Option<seq<byte>>)
    ensures r.Some? ==> IsFileName(r.value) && r.value in Segments(p)
  {
    match LastNamed(Segments(p))
    case None => None
    case Some(s) => if s == [DOT, DOT] then None else Some(s)
  }

  /** The file name of `dir/name` is `name`, whatever `dir` is. */
  lemma FileNameOfChild(dir: seq<byte>, name: seq<byte>)
    requires IsFileName(name)
    ensures FileName(dir + [SLASH] + name) == Some(name)
  {
    SegmentsAppend(dir, name);
    SegmentsOfPiece(name);
    var segs := Segments(dir) + [name];
    assert segs[|segs| - 1] == name;
  }

  /** A path without separators is its own file name. */
  lemma FileNameOfBareName(name: seq<byte>)
    requires IsFileName(name)
    ensures FileName(name) == Some(name)
  {
    SegmentsOfPiece(name);
  }

  /** A trailing separator does not change the file name (`a/b/` names `b`). */
  lemma FileNameIgnoresTrailingSlash(p: seq<byte>)
    ensures FileName(p + [SLASH]) == FileName(p)
  {
    SegmentsAppend(p, []);
    assert p + [SLASH] + [] == p + [SLASH];
    var segs := Segments(p) + [[]];
    assert segs[..|segs| - 1] == Segments(p);
  }

  /** A trailing `/.` does not change the file name (`a/b/.` names `b`). */
  lemma FileNameIgnoresTrailingDot(p: seq<byte>)
    ensures FileName(p + [SLASH, DOT]) == FileName(p)
  {
    SegmentsAppend(p, [DOT]);
    SegmentsOfPiece([DOT]);
    assert p + [SLASH] + [DOT] == p + [SLASH, DOT];
    var segs := Segments(p) + [[DOT]];
    assert segs[..|segs| - 1] == Segments(p);
  }

  /** A path ending in `..` has no file name. */
  lemma FileNameOfParentRef(dir: seq<byte>)
    ensures FileName(dir + [SLASH, DOT, DOT]) == None
  {
    SegmentsAppend(dir, [DOT, DOT]);
    SegmentsOfPiece([DOT, DOT]);
    assert dir + [SLASH] + [DOT, DOT] == dir + [SLASH, DOT, DOT];
  }

  /** The root, the empty path, `.` and `..` have no file name. */
  lemma NoFileName()
    ensures FileName([]) == None
    ensures FileName([SLASH]) == None
    ensures FileName([DOT]) == None
    ensures FileName([DOT, DOT]) == None
  {
    SegmentsAppend([], []);
    assert [] + [SLASH] + [] == [SLASH];
    SegmentsOfPiece([DOT]);
    SegmentsOfPiece([DOT, DOT]);
  }
}
