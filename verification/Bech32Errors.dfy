/** How far apart two accepted strings with the same prefix must be. */
module Bech32Errors {
  import opened Base
  import opened Bech32Checksum
  import opened Bech32Text

  /** Equal length and equal everywhere but in six consecutive positions. */
  ghost predicate Near<T(!new)>(s: seq<T>, t: seq<T>, p: int) {
    |s| == |t| && forall j :: 0 <= j < |s| && !(p <= j < p + 6) ==> s[j] == t[j]
  }

  function Clamp(p: int, n: nat): (r: nat)
    ensures r <= n && (r <= p || r == 0) && (r >= p || r == n)
  {
    if p < 0 then 0 else if p > n then n else p
  }

  lemma NearParts<T(!new)>(s: seq<T>, t: seq<T>, p: int, lo: nat, hi: nat)
    requires Near(s, t, p) && lo == Clamp(p, |s|) && hi == Clamp(p + 6, |s|)
    ensures lo <= hi <= lo + 6
    ensures s == s[..lo] + s[lo..hi] + s[hi..] && t == s[..lo] + t[lo..hi] + s[hi..]
  {
    assert s[..lo] == t[..lo];
    assert s[hi..] == t[hi..];
    assert t == t[..lo] + t[lo..hi] + t[hi..];
  }

  lemma {:induction false} NearWordsCoincide(h: Text, w: seq<Byte>, x: seq<Byte>, p: int)
    requires Symbols(w) && Symbols(x) && Near(w, x, p)
    ensures Valid(h, w) && Valid(h, x) ==> w == x
  {
    var lo, hi := Clamp(p, |w|), Clamp(p + 6, |w|);
    NearParts(w, x, p, lo, hi);
    if w[lo..hi] != x[lo..hi] {
      BurstIsDetected(h, w[..lo], w[lo..hi], x[lo..hi], w[hi..]);
    }
  }

  /** Strings that differ within six characters print words that differ within six symbols. */
  lemma NearSymbols(w: seq<Byte>, x: seq<Byte>, a: Text, b: Text, p: int)
    requires Symbols(w) && Symbols(x) && Print(w) == Ok(a) && Print(x) == Ok(b) && Near(a, b, p)
    ensures Near(w, x, p)
  {
    PrintThenParse(w);
    PrintThenParse(x);
    forall j | 0 <= j < |w| && !(p <= j < p + 6) ensures w[j] == x[j] {
      assert a[j] == b[j];
      GlyphInjective(w[j], x[j]);
    }
  }

  lemma NearTails(h: Text, a: Text, b: Text, p: int)
    requires Near(h + [SEPARATOR] + a, h + [SEPARATOR] + b, p)
    ensures Near(a, b, p - |h| - 1)
  {
    var s, t, k := h + [SEPARATOR] + a, h + [SEPARATOR] + b, |h| + 1;
    forall j | 0 <= j < |a| && !(p - k <= j < p - k + 6) ensures a[j] == b[j] {
      assert s[k + j] == a[j] && t[k + j] == b[j];
    }
  }

  /** `s` is accepted with prefix `h`. */
  predicate AcceptedAs(s: Text, h: Text) {
    Decode(s).Ok? && Decode(s).value.0 == h
  }

  /** The word behind an accepted string. */
  lemma {:induction false} AcceptedWord(s: Text, h: Text) returns (w: seq<Byte>, a: Text)
    ensures AcceptedAs(s, h) ==> Symbols(w) && Valid(h, w) && Print(w) == Ok(a) && s == h + [SEPARATOR] + a
  {
    w, a := [], [];
    if AcceptedAs(s, h) {
      w := Split(s).value.1;
      SplitParts(s, h, w);
      a := Print(w).value;
    }
  }

  /** Two accepted strings with the same prefix that differ only within six consecutive characters are equal. */
  lemma {:induction false} NearStringsCoincide(s: Text, t: Text, h: Text, p: int)
    requires Near(s, t, p)
    ensures AcceptedAs(s, h) && AcceptedAs(t, h) ==> s == t
  {
    if AcceptedAs(s, h) && AcceptedAs(t, h) {
      var w, a := AcceptedWord(s, h);
      var x, b := AcceptedWord(t, h);
      NearTails(h, a, b, p);
      NearSymbols(w, x, a, b, p - |h| - 1);
      NearWordsCoincide(h, w, x, p - |h| - 1);
    }
  }

  lemma GlyphInjective(u: Byte, v: Byte)
    requires u < 32 && v < 32 && Glyph(u) == Glyph(v)
    ensures u == v
  {
    FindAt(u, 0);
    FindAt(v, 0);
  }
}
