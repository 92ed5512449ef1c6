/** The prompt hash of the game page (`hashCode`) and the seeded placeholder
    image derived from it (`imageFromPrompt`). */
module PromptHash {
  import opened Text
  import Decimal
  import opened Wrappers

  const TwoTo32: int := 0x1_0000_0000
  const TwoTo31: int := 0x8000_0000

  /** A value of a JavaScript int32 operation. */
  predicate IsInt32(x: int) {
    -TwoTo31 <= x < TwoTo31
  }

  /** ECMAScript ToInt32 on an integral number: the unique int32 congruent
      to `x` modulo 2^32. */
  function ToInt32(x: int): (r: int)
    ensures IsInt32(r)
  {
    var m := x % TwoTo32;
    if m >= TwoTo31 then m - TwoTo32 else m
  }

  /** ToInt32 only discards multiples of 2^32, and keeps int32 values. */
  lemma ToInt32IsModular(x: int)
    ensures (ToInt32(x) - x) % TwoTo32 == 0
    ensures IsInt32(x) ==> ToInt32(x) == x
  {
  }

  /** ToInt32 depends on its argument only modulo 2^32. */
  lemma ToInt32Congruent(a: int, b: int)
    requires (a - b) % TwoTo32 == 0
    ensures ToInt32(a) == ToInt32(b)
  {
    var q := (a - b) / TwoTo32;
    assert a == b + q * TwoTo32;
    assert a % TwoTo32 == b % TwoTo32;
  }

  /** `hash << 5` on an int32 `hash`: the low 32 bits of `hash * 32`. */
  function ShiftLeft5(h: int): (r: int)
    ensures IsInt32(r)
  {
    ToInt32(h * 32)
  }

  /** One loop iteration of `hashCode`, written as the source writes it:
      `hash = (hash << 5) - hash + code; hash |= 0`. */
  function HashStep(h: int, c: CodeUnit): int {
    ToInt32(ShiftLeft5(h) - h + c)
  }

  /** The shift-and-subtract step is the Java string-hash step
      `h * 31 + c` with int32 wrap-around. */
  lemma HashStepIsTimes31(h: int, c: CodeUnit)
    requires IsInt32(h)
    ensures IsInt32(HashStep(h, c))
    ensures HashStep(h, c) == ToInt32(31 * h + c)
  {
    var s := ShiftLeft5(h);
    ToInt32IsModular(h * 32);
    var q := (s - 32 * h) / TwoTo32;
    assert s == 32 * h + q * TwoTo32;
    ToInt32Congruent(s - h + c, 31 * h + c);
  }

  /** The value of `hash` after the loop has consumed all of `s`. */
  function HashFold(s: JsString): (r: int)
    ensures IsInt32(r)
  {
    if s == [] then 0 else HashStep(HashFold(s[..|s| - 1]), s[|s| - 1])
  }

  /** `Math.abs` applied to a JavaScript number. It is not an int32
      operation: `Math.abs(-2147483648)` is 2147483648. */
  function Abs(x: int): (r: nat)
    ensures r == x || r == -x
  {
    if x < 0 then -x else x
  }

  /** `hashCode(text)`: a non-negative integer of at most 2^31, and 0 for
      the empty string. */
  function HashCode(s: JsString): (r: nat)
    ensures r <= TwoTo31
    ensures s == [] ==> r == 0
    ensures r == HashFold(s) || r == -HashFold(s)
  {
    Abs(HashFold(s))
  }

  lemma HashFoldSnoc(s: JsString, i: nat)
    requires i < |s|
    ensures HashFold(s[..i + 1]) == HashStep(HashFold(s[..i]), s[i])
  {
    assert s[..i + 1][..i] == s[..i];
  }

  /** `hashCode` as the loop of the source: after every iteration `hash`
      is an int32 equal to the Java hash of the prefix read so far. */
  method HashCodeLoop(text: JsString) returns (r: nat)
    ensures r == HashCode(text)
    ensures r <= TwoTo31
  {
    var hash := 0;
    var i := 0;
    while i < |text|
      invariant 0 <= i <= |text|
      invariant IsInt32(hash)
      invariant hash == HashFold(text[..i])
    {
      HashFoldSnoc(text, i);
      hash := ShiftLeft5(hash) - hash + text[i];
      hash := ToInt32(hash);
      i := i + 1;
    }
    assert text[..i] == text;
    r := Abs(hash);
  }

  /** The upper bound 2^31 of `hashCode` is reached: seven code units whose
      Java hash is exactly -2^31, so `Math.abs` leaves the int32 range. */
  lemma HashCodeReachesTwoTo31(s: JsString)
    requires s == [2, 13, 0, 9, 30, 12, 2]
    ensures HashFold(s) == -TwoTo31
    ensures HashCode(s) == TwoTo31
  {
    WitnessFirstHalf(s);
    ToInt32IsModular(2234634);
    HashPrefixStep(s, 5, 72084, 2234634);
    ToInt32IsModular(69273666);
    HashPrefixStep(s, 6, 2234634, 69273666);
    ToInt32WrapsOnce(31 * 69273666 + 2);
    HashPrefixStep(s, 7, 69273666, -TwoTo31);
    assert s[..7] == s;
  }

  /** The first four steps of the witness computation. */
  lemma WitnessFirstHalf(s: JsString)
    requires s == [2, 13, 0, 9, 30, 12, 2]
    ensures HashFold(s[..4]) == 72084
  {
    assert HashFold(s[..0]) == 0 by { assert s[..0] == []; }
    ToInt32IsModular(2);
    HashPrefixStep(s, 1, 0, 2);
    ToInt32IsModular(75);
    HashPrefixStep(s, 2, 2, 75);
    ToInt32IsModular(2325);
    HashPrefixStep(s, 3, 75, 2325);
    ToInt32IsModular(72084);
    HashPrefixStep(s, 4, 2325, 72084);
  }

  /** One concrete step of the witness computation. */
  lemma HashPrefixStep(s: JsString, k: nat, h: int, h': int)
    requires 0 < k <= |s|
    requires HashFold(s[..k - 1]) == h
    requires ToInt32(31 * h + s[k - 1]) == h'
    ensures HashFold(s[..k]) == h'
  {
    HashFoldTimes31(s, k);
  }

  /** ToInt32 maps [2^31, 2^32) to the negative int32 values. */
  lemma ToInt32WrapsOnce(x: int)
    requires TwoTo31 <= x < TwoTo32
    ensures ToInt32(x) == x - TwoTo32
  {
  }

  /** Unfolds the hash of a prefix by one code unit, in the Java form. */
  lemma HashFoldTimes31(s: JsString, k: nat)
    requires 0 < k <= |s|
    ensures HashFold(s[..k]) == ToInt32(31 * HashFold(s[..k - 1]) + s[k - 1])
  {
    assert s[..k][..k - 1] == s[..k - 1];
    HashStepIsTimes31(HashFold(s[..k - 1]), s[k - 1]);
  }

  const ImageUrlPrefix: string := "https://picsum.photos/seed/"
  const ImageUrlSuffix: string := "/600/600"

  /** `imageFromPrompt(prompt)`: the placeholder URL seeded by the prompt's
      hash. */
  function ImageFromPrompt(prompt: JsString): (url: string)
    ensures |url| > |ImageUrlPrefix| + |ImageUrlSuffix|
    ensures url[..|ImageUrlPrefix|] == ImageUrlPrefix
    ensures url[|url| - |ImageUrlSuffix|..] == ImageUrlSuffix
  {
    ImageUrlPrefix + Decimal.Render(HashCode(prompt)) + ImageUrlSuffix
  }

  /** Reads the seed back out of a placeholder URL; `None` for any string
      that is not such a URL. */
  function SeedOfImageUrl(url: string): (r: Option<nat>)
  {
    var n := |ImageUrlPrefix| + |ImageUrlSuffix|;
    if |url| <= n || url[..|ImageUrlPrefix|] != ImageUrlPrefix
       || url[|url| - |ImageUrlSuffix|..] != ImageUrlSuffix
    then None
    else
      var digits := url[|ImageUrlPrefix|..|url| - |ImageUrlSuffix|];
      if forall k :: 0 <= k < |digits| ==> Decimal.IsDigit(digits[k])
      then Some(Decimal.Value(digits))
      else None
  }

  /** The URL carries the whole hash: parsing it gives `hashCode(prompt)`
      back. */
  lemma SeedOfImageFromPrompt(prompt: JsString)
    ensures SeedOfImageUrl(ImageFromPrompt(prompt)) == Some(HashCode(prompt))
  {
    var d := Decimal.Render(HashCode(prompt));
    var url := ImageFromPrompt(prompt);
    assert url[|ImageUrlPrefix|..|url| - |ImageUrlSuffix|] == d;
    Decimal.ValueOfRender(HashCode(prompt));
  }

  /** Two prompts get the same placeholder image exactly when their hashes
      are equal. */
  lemma SameImageIffSameHash(p: JsString, q: JsString)
    ensures ImageFromPrompt(p) == ImageFromPrompt(q) <==> HashCode(p) == HashCode(q)
  {
    if ImageFromPrompt(p) == ImageFromPrompt(q) {
      SeedOfImageFromPrompt(p);
      SeedOfImageFromPrompt(q);
    }
  }
}
