/** The static-file branch of the server: the default document, the
    removal of `..` from the request path, and the content-type table. */
module StaticFiles {
  import opened Wrappers

  const IndexPath: string := "/index.html"

  /** `url.pathname === "/" ? "/index.html" : url.pathname`. */
  function DefaultDocument(pathname: string): string {
    if pathname == "/" then IndexPath else pathname
  }

  /** `pathname.replace(/\.\./g, "")`: a single left-to-right pass that
      deletes each non-overlapping occurrence of `..`; text produced by a
      deletion is not scanned again. */
  function StripDotDot(p: string): (r: string)
    ensures |r| <= |p|
  {
    if p == [] then []
    else if |p| >= 2 && p[0] == '.' && p[1] == '.' then StripDotDot(p[2..])
    else [p[0]] + StripDotDot(p[1..])
  }

  /** The path served for a request path. */
  function SafePath(pathname: string): string {
    StripDotDot(DefaultDocument(pathname))
  }

  /** `s` contains the substring `..`. */
  predicate HasDotDot(s: string) {
    exists i :: 0 <= i < |s| - 1 && s[i] == '.' && s[i + 1] == '.'
  }

  lemma {:induction false} StripKeepsLeadingNonDot(p: string)
    requires p != [] && p[0] != '.'
    ensures StripDotDot(p) != [] && StripDotDot(p)[0] == p[0]
  {
  }

  /** Whatever the input, the stripped path has no `..` left: a dot is kept
      only when the next character is not a dot, and that next character
      is then kept right after it. */
  lemma {:induction false} StripLeavesNoDotDot(p: string)
    ensures !HasDotDot(StripDotDot(p))
  {
    if p == [] {
    } else if |p| >= 2 && p[0] == '.' && p[1] == '.' {
      StripLeavesNoDotDot(p[2..]);
    } else {
      var rest := StripDotDot(p[1..]);
      StripLeavesNoDotDot(p[1..]);
      var r := [p[0]] + rest;
      if HasDotDot(r) {
        var i :| 0 <= i < |r| - 1 && r[i] == '.' && r[i + 1] == '.';
        if i == 0 {
          StripKeepsLeadingNonDot(p[1..]);
        }
        assert false;
      }
    }
  }

  /** A path without `..` passes through unchanged, and only such a path
      does. */
  lemma {:induction false} StripIsIdentityIffNoDotDot(q: string)
    ensures StripDotDot(q) == q <==> !HasDotDot(q)
  {
    if !HasDotDot(q) {
      StripChangesOnlyDotDot(q);
    } else {
      StripLeavesNoDotDot(q);
    }
  }

  lemma {:induction false} StripChangesOnlyDotDot(q: string)
    requires !HasDotDot(q)
    ensures StripDotDot(q) == q
  {
    if q != [] {
      assert !(|q| >= 2 && q[0] == '.' && q[1] == '.');
      assert !HasDotDot(q[1..]);
      StripChangesOnlyDotDot(q[1..]);
    }
  }

  /** Running the replacement a second time changes nothing. */
  lemma StripIdempotent(p: string)
    ensures StripDotDot(StripDotDot(p)) == StripDotDot(p)
  {
    StripLeavesNoDotDot(p);
    StripChangesOnlyDotDot(StripDotDot(p));
  }

  /** The characters of `s` other than `.`, in order. */
  function NonDots(s: string): string {
    if s == [] then [] else (if s[0] == '.' then [] else [s[0]]) + NonDots(s[1..])
  }

  /** The number of `.` characters in `s`. */
  function DotCount(s: string): nat {
    if s == [] then 0 else (if s[0] == '.' then 1 else 0) + DotCount(s[1..])
  }

  /** `a` can be obtained from `b` by deleting characters. */
  predicate IsSubsequence(a: string, b: string)
    decreases |b|
  {
    if a == [] then true
    else if b == [] then false
    else (a[0] == b[0] && IsSubsequence(a[1..], b[1..])) || IsSubsequence(a, b[1..])
  }

  lemma {:induction false} SubsequenceOfLonger(a: string, c: char, b: string)
    requires IsSubsequence(a, b)
    ensures IsSubsequence(a, [c] + b)
  {
    assert ([c] + b)[1..] == b;
  }

  /** Stripping only deletes dots: every other character survives, in
      order. */
  lemma {:induction false} StripKeepsNonDots(p: string)
    ensures NonDots(StripDotDot(p)) == NonDots(p)
  {
    if p == [] {
    } else if |p| >= 2 && p[0] == '.' && p[1] == '.' {
      StripKeepsNonDots(p[2..]);
      assert p[1..][1..] == p[2..];
    } else {
      StripKeepsNonDots(p[1..]);
      assert ([p[0]] + StripDotDot(p[1..]))[1..] == StripDotDot(p[1..]);
    }
  }

  /** The stripped path is obtained from the request path by deleting
      characters. */
  lemma {:induction false} StripIsSubsequence(p: string)
    ensures IsSubsequence(StripDotDot(p), p)
  {
    if p == [] {
    } else if |p| >= 2 && p[0] == '.' && p[1] == '.' {
      StripIsSubsequence(p[2..]);
      SubsequenceOfLonger(StripDotDot(p), p[1], p[2..]);
      assert [p[1]] + p[2..] == p[1..];
      SubsequenceOfLonger(StripDotDot(p), p[0], p[1..]);
      assert [p[0]] + p[1..] == p;
    } else {
      StripIsSubsequence(p[1..]);
      assert ([p[0]] + StripDotDot(p[1..]))[1..] == StripDotDot(p[1..]);
    }
  }

  /** Only dots disappear, and an even number of them. */
  lemma {:induction false} StripDeletesDotPairs(p: string)
    ensures DotCount(p) - DotCount(StripDotDot(p)) == |p| - |StripDotDot(p)|
    ensures (|p| - |StripDotDot(p)|) % 2 == 0
  {
    if p == [] {
    } else if |p| >= 2 && p[0] == '.' && p[1] == '.' {
      StripDeletesDotPairs(p[2..]);
      assert p[1..][1..] == p[2..];
    } else {
      StripDeletesDotPairs(p[1..]);
      assert ([p[0]] + StripDotDot(p[1..]))[1..] == StripDotDot(p[1..]);
    }
  }

  /** The request path `/` serves `/index.html`; any other path is only
      stripped of `..`; the served path never contains `..`. */
  lemma SafePathProperties(pathname: string)
    ensures pathname == "/" ==> SafePath(pathname) == IndexPath
    ensures pathname != "/" ==> SafePath(pathname) == StripDotDot(pathname)
    ensures !HasDotDot(SafePath(pathname))
  {
    StripLeavesNoDotDot(DefaultDocument(pathname));
    if pathname == "/" {
      IndexPathKept(IndexPath);
    }
  }

  lemma IndexPathKept(p: string)
    requires p == IndexPath
    ensures StripDotDot(p) == p
  {
    forall i | 0 <= i < |p| - 1 ensures !(p[i] == '.' && p[i + 1] == '.') {
      if p[i] == '.' {
        assert i == 6;
      }
    }
    StripChangesOnlyDotDot(p);
  }

  const OctetStream: string := "application/octet-stream"

  /** The `mimeTypes` table. */
  const MimeTypes: map<string, string> := map[
    ".html" := "text/html; charset=utf-8",
    ".js" := "text/javascript; charset=utf-8",
    ".css" := "text/css; charset=utf-8",
    ".json" := "application/json; charset=utf-8"
  ]

  /** `mimeTypes[ext] || "application/octet-stream"`: the table entry when
      there is one and it is not the empty string, the default otherwise. */
  function ContentType(ext: string): string {
    var found := if ext in MimeTypes then Some(MimeTypes[ext]) else None;
    if found.Some? && found.value != "" then found.value else OctetStream
  }

  /** The content type is the table entry for the four known extensions and
      `application/octet-stream` for every other one. */
  lemma ContentTypeTable(ext: string)
    ensures ext in MimeTypes ==> ContentType(ext) == MimeTypes[ext]
    ensures ContentType(ext) == OctetStream <==> ext !in MimeTypes
    ensures ext in MimeTypes <==> ext in {".html", ".js", ".css", ".json"}
  {
  }
}
