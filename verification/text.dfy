/** JavaScript strings as sequences of UTF-16 code units, and the
    whitespace trimming of `String.prototype.trim`. */
module Text {

  /** One UTF-16 code unit: what `charCodeAt` returns. */
  type CodeUnit = c: int | 0 <= c < 0x1_0000

  /** A JavaScript string value. */
  type JsString = seq<CodeUnit>

  /** The code units `trim` removes: the WhiteSpace and LineTerminator
      productions of ECMAScript (tab, LF, VT, FF, CR, space, NBSP, the
      Zs separators, LS, PS and the byte-order mark). */
  predicate IsWhitespace(c: CodeUnit) {
    || c == 0x09 || c == 0x0A || c == 0x0B || c == 0x0C || c == 0x0D
    || c == 0x20 || c == 0xA0 || c == 0x1680
    || (0x2000 <= c <= 0x200A)
    || c == 0x2028 || c == 0x2029 || c == 0x202F || c == 0x205F
    || c == 0x3000 || c == 0xFEFF
  }

  predicate AllWhitespace(s: JsString) {
    forall k :: 0 <= k < |s| ==> IsWhitespace(s[k])
  }

  /** Removes leading whitespace: the result is the longest suffix of `s`
      that does not start with whitespace. */
  function TrimStart(s: JsString): (r: JsString)
    ensures |r| <= |s| && r == s[|s| - |r|..]
    ensures r == [] || !IsWhitespace(r[0])
  {
    if s != [] && IsWhitespace(s[0]) then TrimStart(s[1..]) else s
  }

  /** Only whitespace is cut from the front. */
  lemma {:induction false} TrimStartCutsWhitespace(s: JsString)
    ensures AllWhitespace(s[..|s| - |TrimStart(s)|])
  {
    if s != [] && IsWhitespace(s[0]) {
      var t := s[1..];
      TrimStartCutsWhitespace(t);
      var n, m := |s| - |TrimStart(s)|, |t| - |TrimStart(t)|;
      assert n == m + 1;
      var cut, cut' := s[..n], t[..m];
      forall k | 0 <= k < n ensures IsWhitespace(cut[k]) {
        if k > 0 {
          assert cut[k] == cut'[k - 1];
        }
      }
    }
  }

  /** Removes trailing whitespace: the result is the longest prefix of `s`
      that does not end with whitespace. */
  function TrimEnd(s: JsString): (r: JsString)
    ensures |r| <= |s| && r == s[..|r|]
    ensures r == [] || !IsWhitespace(r[|r| - 1])
  {
    if s != [] && IsWhitespace(s[|s| - 1]) then TrimEnd(s[..|s| - 1]) else s
  }

  /** Only whitespace is cut from the back. */
  lemma {:induction false} TrimEndCutsWhitespace(s: JsString)
    ensures AllWhitespace(s[|TrimEnd(s)|..])
  {
    if s != [] && IsWhitespace(s[|s| - 1]) {
      TrimEndCutsWhitespace(s[..|s| - 1]);
      assert s[|TrimEnd(s)|..] == s[..|s| - 1][|TrimEnd(s[..|s| - 1])|..] + [s[|s| - 1]];
    }
  }

  /** `String.prototype.trim`: no whitespace left at either end. */
  function Trim(s: JsString): (r: JsString)
    ensures |r| <= |s|
    ensures r == [] || (!IsWhitespace(r[0]) && !IsWhitespace(r[|r| - 1]))
  {
    TrimEnd(TrimStart(s))
  }

  /** The trimmed string is a contiguous slice of the input with only
      whitespace cut away on either side. */
  lemma TrimIsSlice(s: JsString)
    ensures exists i :: 0 <= i <= |s| - |Trim(s)| && Trim(s) == s[i..i + |Trim(s)|]
                        && AllWhitespace(s[..i]) && AllWhitespace(s[i + |Trim(s)|..])
  {
    var t := TrimStart(s);
    var r := TrimEnd(t);
    var i := |s| - |t|;
    TrimStartCutsWhitespace(s);
    TrimEndCutsWhitespace(t);
    assert r == s[i..i + |r|] && s[i + |r|..] == t[|r|..];
  }

  /** A prompt trims to nothing exactly when it is made of whitespace only
      (the empty string included). */
  lemma TrimEmptyIffAllWhitespace(s: JsString)
    ensures Trim(s) == [] <==> AllWhitespace(s)
  {
    var t := TrimStart(s);
    if Trim(s) == [] {
      TrimStartCutsWhitespace(s);
      TrimEndCutsWhitespace(t);
      assert s == s[..|s| - |t|] + t;
      assert AllWhitespace(t[0..]);
    }
  }

  /** Trimming is idempotent. */
  lemma TrimIdempotent(s: JsString)
    ensures Trim(Trim(s)) == Trim(s)
  {
    var r := Trim(s);
    assert TrimStart(r) == r;
    assert TrimEnd(r) == r;
  }

  /** The UTF-16 encoding of a Dafny string: how a string literal in the
      source becomes a sequence of code units. */
  function Utf16(s: string): (r: JsString)
    ensures |r| >= |s|
    ensures (forall k :: 0 <= k < |s| ==> s[k] as int < 0x1_0000) ==> |r| == |s|
  {
    if s == [] then []
    else
      var c := s[0] as int;
      var head: JsString :=
        if c < 0x1_0000 then [c]
        else [0xD800 + (c - 0x1_0000) / 0x400, 0xDC00 + (c - 0x1_0000) % 0x400];
      head + Utf16(s[1..])
  }
}
