/** The answer normaliser. The four scripts carry the same one-line
    `normalize`: `re.sub(r'[^a-z0-9]+', '', text.strip().lower())`. */
module Text {

  /** Python's `str.isspace()` on one character: the characters `strip()`
      removes. */
  predicate IsSpace(c: char)
    ensures IsSpace(c) ==> !('A' <= c <= 'Z') && !IsLowerAlnum(c)
  {
    var n := c as int;
    (9 <= n <= 13) || (28 <= n <= 32) || n == 0x85 || n == 0xA0 || n == 0x1680
    || (0x2000 <= n <= 0x200A) || n == 0x2028 || n == 0x2029 || n == 0x202F
    || n == 0x205F || n == 0x3000
  }

  /** The leading-whitespace half of `str.strip()`. */
  function TrimStart(s: string): (r: string)
    ensures |r| <= |s|
  {
    if s != [] && IsSpace(s[0]) then TrimStart(s[1..]) else s
  }

  /** The trailing-whitespace half of `str.strip()`. */
  function TrimEnd(s: string): (r: string)
    ensures |r| <= |s|
  {
    if s != [] && IsSpace(s[|s| - 1]) then TrimEnd(s[..|s| - 1]) else s
  }

  /** Python's `str.strip()` with no argument. */
  function Strip(s: string): (r: string)
    ensures |r| <= |s|
  {
    TrimEnd(TrimStart(s))
  }

  /** `str.lower()` on one character, over ASCII. */
  function LowerChar(c: char): (r: char)
    ensures !('A' <= r <= 'Z')
    ensures IsLowerAlnum(r) <==> IsLowerAlnum(c) || 'A' <= c <= 'Z'
  {
    if 'A' <= c <= 'Z' then (c as int + 32) as char else c
  }

  /** `str.lower()` over ASCII: every upper-case letter becomes its
      lower-case letter, no upper-case letter is left, and every other
      character stays where it is. */
  function Lower(s: string): (r: string)
    ensures |r| == |s|
    ensures forall i :: 0 <= i < |r| ==> !('A' <= r[i] <= 'Z')
    ensures forall i :: 0 <= i < |s| && !('A' <= s[i] <= 'Z') ==> r[i] == s[i]
    ensures forall i :: 0 <= i < |s| && 'A' <= s[i] <= 'Z' ==>
      'a' <= r[i] <= 'z' && r[i] as int - 'a' as int == s[i] as int - 'A' as int
  {
    seq(|s|, i requires 0 <= i < |s| => LowerChar(s[i]))
  }

  /** The characters the normaliser keeps: `[a-z0-9]`. */
  predicate IsLowerAlnum(c: char)
    ensures IsLowerAlnum(c) ==> c as int < 128 && !('A' <= c <= 'Z')
  {
    'a' <= c <= 'z' || '0' <= c <= '9'
  }

  /** `re.sub(r'[^a-z0-9]+', '', s)`: deletes every character outside
      `[a-z0-9]` and keeps the others in order. */
  function KeepLowerAlnum(s: string): (r: string)
    ensures |r| <= |s|
    ensures forall i :: 0 <= i < |r| ==> IsLowerAlnum(r[i])
  {
    if s == [] then []
    else (if IsLowerAlnum(s[0]) then [s[0]] else []) + KeepLowerAlnum(s[1..])
  }

  /** `normalize(text)`: lower-cases, strips the edges, then removes every
      character that is not a lower-case ASCII letter or digit. */
  function Normalize(text: string): (r: string)
    ensures forall i :: 0 <= i < |r| ==> IsLowerAlnum(r[i])
  {
    KeepLowerAlnum(Lower(Strip(text)))
  }

  lemma {:induction false} KeepAppend(a: string, b: string)
    ensures KeepLowerAlnum(a + b) == KeepLowerAlnum(a) + KeepLowerAlnum(b)
  {
    if a == [] {
      assert a + b == b;
    } else {
      assert (a + b)[1..] == a[1..] + b;
      KeepAppend(a[1..], b);
    }
  }

  lemma {:induction false} KeepDropsAll(s: string)
    requires forall i :: 0 <= i < |s| ==> !IsLowerAlnum(s[i])
    ensures KeepLowerAlnum(s) == []
  {
    if s != [] {
      KeepDropsAll(s[1..]);
    }
  }

  lemma {:induction false} KeepFixes(s: string)
    requires forall i :: 0 <= i < |s| ==> IsLowerAlnum(s[i])
    ensures KeepLowerAlnum(s) == s
  {
    if s != [] {
      KeepFixes(s[1..]);
      assert [s[0]] + s[1..] == s;
    }
  }

  lemma LowerAppend(a: string, b: string)
    ensures Lower(a + b) == Lower(a) + Lower(b)
  {
  }

  /** Lower-casing keeps whitespace whitespace, so none of it survives. */
  lemma {:induction false} KeepDropsSpaces(s: string)
    requires forall i :: 0 <= i < |s| ==> IsSpace(s[i])
    ensures KeepLowerAlnum(Lower(s)) == []
  {
    var l := Lower(s);
    forall i | 0 <= i < |l| ensures !IsLowerAlnum(l[i]) {
      assert IsSpace(s[i]);
    }
    KeepDropsAll(l);
  }

  /** The leading-whitespace half removes a whitespace prefix `p` and
      stops at the first character that is not whitespace. */
  lemma {:induction false} TrimStartPart(text: string) returns (p: string)
    ensures text == p + TrimStart(text)
    ensures forall i :: 0 <= i < |p| ==> IsSpace(p[i])
    ensures TrimStart(text) == [] || !IsSpace(TrimStart(text)[0])
  {
    if text != [] && IsSpace(text[0]) {
      var p0 := TrimStartPart(text[1..]);
      p := [text[0]] + p0;
      assert text == [text[0]] + text[1..];
    } else {
      p := [];
    }
  }

  /** The trailing-whitespace half removes a whitespace suffix `q` and
      stops at the last character that is not whitespace. */
  lemma {:induction false} TrimEndPart(t: string) returns (q: string)
    ensures t == TrimEnd(t) + q
    ensures forall i :: 0 <= i < |q| ==> IsSpace(q[i])
    ensures TrimEnd(t) == [] || !IsSpace(TrimEnd(t)[|TrimEnd(t)| - 1])
  {
    if t != [] && IsSpace(t[|t| - 1]) {
      var n := |t| - 1;
      var q0 := TrimEndPart(t[..n]);
      q := q0 + [t[n]];
      assert t == t[..n] + [t[n]];
    } else {
      q := [];
    }
  }

  /** `strip()` removes a whitespace prefix `p` and a whitespace suffix `q`,
      and what remains neither starts nor ends with whitespace. */
  lemma StripParts(text: string) returns (p: string, q: string)
    ensures text == p + Strip(text) + q
    ensures forall i :: 0 <= i < |p| ==> IsSpace(p[i])
    ensures forall i :: 0 <= i < |q| ==> IsSpace(q[i])
    ensures Strip(text) == [] || (!IsSpace(Strip(text)[0]) && !IsSpace(Strip(text)[|Strip(text)| - 1]))
  {
    var t := TrimStart(text);
    p := TrimStartPart(text);
    q := TrimEndPart(t);
    var u := TrimEnd(t);
    if u != [] {
      assert t[0] == u[0];
    }
  }

  lemma LowerIdempotent(s: string)
    ensures Lower(Lower(s)) == Lower(s)
  {
  }

  /** Leading whitespace never reaches the normal form. */
  lemma DropSpacePrefix(p: string, s: string)
    requires forall i :: 0 <= i < |p| ==> IsSpace(p[i])
    ensures KeepLowerAlnum(Lower(p + s)) == KeepLowerAlnum(Lower(s))
  {
    LowerAppend(p, s);
    KeepAppend(Lower(p), Lower(s));
    KeepDropsSpaces(p);
  }

  /** Trailing whitespace never reaches the normal form. */
  lemma DropSpaceSuffix(s: string, q: string)
    requires forall i :: 0 <= i < |q| ==> IsSpace(q[i])
    ensures KeepLowerAlnum(Lower(s + q)) == KeepLowerAlnum(Lower(s))
  {
    LowerAppend(s, q);
    KeepAppend(Lower(s), Lower(q));
    KeepDropsSpaces(q);
  }

  /** Whitespace is never kept, so the `strip()` step changes nothing:
      the normaliser is lower-casing followed by the character filter. */
  lemma NormalizeIgnoresStrip(text: string)
    ensures Normalize(text) == KeepLowerAlnum(Lower(text))
  {
    var t := TrimStart(text);
    var p := TrimStartPart(text);
    DropSpacePrefix(p, t);
    var q := TrimEndPart(t);
    DropSpaceSuffix(TrimEnd(t), q);
  }

  /** A string already made of `[a-z0-9]` is its own normal form. */
  lemma NormalizeFixesNormalForm(s: string)
    requires forall i :: 0 <= i < |s| ==> IsLowerAlnum(s[i])
    ensures Normalize(s) == s
  {
    NormalizeIgnoresStrip(s);
    assert Lower(s) == s;
    KeepFixes(s);
  }

  /** Normalising twice is normalising once. */
  lemma NormalizeIdempotent(text: string)
    ensures Normalize(Normalize(text)) == Normalize(text)
  {
    NormalizeFixesNormalForm(Normalize(text));
  }

  /** Letter case in the input never matters. */
  lemma NormalizeIgnoresCase(text: string)
    ensures Normalize(Lower(text)) == Normalize(text)
  {
    NormalizeIgnoresStrip(text);
    NormalizeIgnoresStrip(Lower(text));
    LowerIdempotent(text);
  }

  /** Inserting a character that does not lower-case into `[a-z0-9]`
      (a space, a bracket, any punctuation) never changes the result. */
  lemma NormalizeIgnoresPunctuation(a: string, c: char, b: string)
    requires !IsLowerAlnum(LowerChar(c))
    ensures Normalize(a + [c] + b) == Normalize(a + b)
  {
    var la, lc, lb := Lower(a), Lower([c]), Lower(b);
    assert KeepLowerAlnum(lc) == [] by {
      assert lc == [LowerChar(c)];
      assert lc[1..] == [];
    }
    calc {
      Normalize(a + [c] + b);
      { NormalizeIgnoresStrip(a + [c] + b); }
      KeepLowerAlnum(Lower(a + [c] + b));
      { LowerAppend(a + [c], b); LowerAppend(a, [c]); }
      KeepLowerAlnum(la + lc + lb);
      { KeepAppend(la + lc, lb); KeepAppend(la, lc); }
      KeepLowerAlnum(la) + KeepLowerAlnum(lb);
      { KeepAppend(la, lb); }
      KeepLowerAlnum(la + lb);
      { LowerAppend(a, b); }
      KeepLowerAlnum(Lower(a + b));
      { NormalizeIgnoresStrip(a + b); }
      Normalize(a + b);
    }
  }
}
