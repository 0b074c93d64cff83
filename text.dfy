/**
 * String helpers with Python's semantics: the whitespace class shared by
 * `str.isspace`, `str.strip` and the `\s` class of `re`, stripping,
 * whitespace collapsing (`re.sub(r"\s+", " ", s)`), `str.split` on one
 * character, `str.join`, `str(int)` and `int(str)`.
 */
module Text {
  import opened Wrappers

  /** Python's Unicode whitespace (`str.isspace`, and `\s` on str patterns). */
  predicate IsSpace(c: char) {
    c == ' ' || c == '\t' || c == '\n' || c == '\r' || c == '\U{b}' || c == '\U{c}'
    || ('\U{1c}' <= c <= '\U{1f}') || c == '\U{85}' || c == '\U{a0}' || c == '\U{1680}'
    || ('\U{2000}' <= c <= '\U{200a}') || c == '\U{2028}' || c == '\U{2029}'
    || c == '\U{202f}' || c == '\U{205f}' || c == '\U{3000}'
  }

  /** ASCII decimal digit (what `\d` and `isdigit` accept on ASCII text). */
  predicate IsDigit(c: char) {
    '0' <= c <= '9'
  }

  predicate AllSpace(s: string) {
    forall i :: 0 <= i < |s| ==> IsSpace(s[i])
  }

  predicate AllDigits(s: string) {
    forall i :: 0 <= i < |s| ==> IsDigit(s[i])
  }

  /** `str.isdigit()` on ASCII text: non-empty and only digits. */
  predicate IsDigitString(s: string) {
    s != [] && AllDigits(s)
  }

  /** No whitespace character is directly followed by another one. */
  predicate NoDoubleSpace(s: string) {
    forall i :: 0 <= i < |s| - 1 ==> !(IsSpace(s[i]) && IsSpace(s[i + 1]))
  }

  /** Every whitespace character is a plain blank. */
  predicate OnlyBlanks(s: string) {
    forall i :: 0 <= i < |s| ==> IsSpace(s[i]) ==> s[i] == ' '
  }

  /** The text with every whitespace character removed. */
  function NonSpace(s: string): string {
    if s == [] then []
    else if IsSpace(s[0]) then NonSpace(s[1..])
    else [s[0]] + NonSpace(s[1..])
  }

  lemma {:induction false} NonSpaceAppend(a: string, b: string)
    ensures NonSpace(a + b) == NonSpace(a) + NonSpace(b)
  {
    if a == [] {
      assert a + b == b;
    } else {
      assert (a + b)[1..] == a[1..] + b;
      NonSpaceAppend(a[1..], b);
    }
  }

  lemma NonSpaceOfSpaces(s: string)
    requires AllSpace(s)
    ensures NonSpace(s) == []
  {
    if s != [] {
      NonSpaceOfSpaces(s[1..]);
    }
  }

  /** A blank in front of a blank run extends it. */
  lemma SpacesCons(s: string, i: nat, e: nat)
    requires i < e <= |s| && IsSpace(s[i]) && AllSpace(s[i + 1..e])
    ensures AllSpace(s[i..e])
  {
    forall k | 0 <= k < e - i ensures IsSpace(s[i..e][k]) {
      if k > 0 {
        assert s[i..e][k] == s[i + 1..e][k - 1];
      }
    }
  }

  /** A blank after a blank run extends it. */
  lemma SpacesSnoc(s: string, b: nat, j: nat)
    requires b < j <= |s| && AllSpace(s[b..j - 1]) && IsSpace(s[j - 1])
    ensures AllSpace(s[b..j])
  {
    forall k | 0 <= k < j - b ensures IsSpace(s[b..j][k]) {
      if k < j - 1 - b {
        assert s[b..j][k] == s[b..j - 1][k];
      }
    }
  }

  /** End of the whitespace run that starts at `i` (what a greedy `\s*` consumes). */
  function SpaceEnd(s: string, i: nat): (e: nat)
    requires i <= |s|
    ensures i <= e <= |s| && AllSpace(s[i..e])
    ensures e == |s| || !IsSpace(s[e])
    decreases |s| - i
  {
    if i < |s| && IsSpace(s[i]) then
      var e := SpaceEnd(s, i + 1);
      SpacesCons(s, i, e);
      e
    else i
  }

  /** Start of the whitespace run that ends at `j`. */
  function SpaceStart(s: string, j: nat): (b: nat)
    requires j <= |s|
    ensures b <= j && AllSpace(s[b..j])
    ensures b == 0 || !IsSpace(s[b - 1])
  {
    if j > 0 && IsSpace(s[j - 1]) then
      var b := SpaceStart(s, j - 1);
      SpacesSnoc(s, b, j);
      b
    else j
  }

  /** `str.lstrip()`. */
  function LStrip(s: string): (r: string)
    ensures |r| <= |s| && r == s[|s| - |r|..]
    ensures AllSpace(s[..|s| - |r|])
    ensures r != [] ==> !IsSpace(r[0])
  {
    var e := SpaceEnd(s, 0);
    assert s[..e] == s[0..e];
    s[e..]
  }

  /** `str.rstrip()`. */
  function RStrip(s: string): (r: string)
    ensures |r| <= |s| && r == s[..|r|]
    ensures AllSpace(s[|r|..])
    ensures r != [] ==> !IsSpace(r[|r| - 1])
  {
    var b := SpaceStart(s, |s|);
    assert s[b..] == s[b..|s|];
    s[..b]
  }

  /**
   * `str.strip()`: the infix left after the leading blanks (`SpaceEnd(s, 0)` of
   * them) and the trailing blanks, which starts and ends with a non-blank.
   */
  function Strip(s: string): (r: string)
    ensures SpaceEnd(s, 0) + |r| <= |s| && r == s[SpaceEnd(s, 0)..SpaceEnd(s, 0) + |r|]
    ensures AllSpace(s[..SpaceEnd(s, 0)]) && AllSpace(s[SpaceEnd(s, 0) + |r|..])
    ensures r != [] ==> !IsSpace(r[0]) && !IsSpace(r[|r| - 1])
  {
    var e := SpaceEnd(s, 0);
    var l := LStrip(s);
    var t := RStrip(l);
    assert l == s[e..];
    assert s[e..][..|t|] == s[e..e + |t|];
    assert l[|t|..] == s[e + |t|..];
    assert s[..e] == s[0..e];
    t
  }

  lemma StripIdempotent(s: string)
    ensures Strip(Strip(s)) == Strip(s)
  {
    var r := Strip(s);
    LStripUnique(r, r);
    RStripUnique(r, r);
  }


  /** The characters that `Strip` keeps are all the non-space ones. */
  lemma StripNonSpace(s: string)
    ensures NonSpace(Strip(s)) == NonSpace(s)
  {
    var l := LStrip(s);
    var r := RStrip(l);
    assert s == s[..|s| - |l|] + l;
    NonSpaceAppend(s[..|s| - |l|], l);
    NonSpaceOfSpaces(s[..|s| - |l|]);
    assert l == r + l[|r|..];
    NonSpaceAppend(r, l[|r|..]);
    NonSpaceOfSpaces(l[|r|..]);
  }

  /** `re.sub(r"\s+", " ", s)`: every maximal whitespace run becomes one blank. */
  function Collapse(s: string): (r: string)
    ensures r == [] <==> s == []
    ensures r != [] ==> (IsSpace(r[0]) <==> IsSpace(s[0]))
    ensures NoDoubleSpace(r) && OnlyBlanks(r)
    decreases |s|
  {
    if s == [] then []
    else if IsSpace(s[0]) then
      var rest := LStrip(s);
      " " + Collapse(rest)
    else [s[0]] + Collapse(s[1..])
  }

  /** Collapsing keeps every non-space character, in order. */
  lemma {:induction false} CollapseNonSpace(s: string)
    ensures NonSpace(Collapse(s)) == NonSpace(s)
    decreases |s|
  {
    if s == [] {
    } else if IsSpace(s[0]) {
      var rest := LStrip(s);
      CollapseNonSpace(rest);
      NonSpaceAppend(" ", Collapse(rest));
      assert s == s[..|s| - |rest|] + rest;
      NonSpaceAppend(s[..|s| - |rest|], rest);
      NonSpaceOfSpaces(s[..|s| - |rest|]);
    } else {
      CollapseNonSpace(s[1..]);
      NonSpaceAppend([s[0]], Collapse(s[1..]));
      assert s == [s[0]] + s[1..];
      NonSpaceAppend([s[0]], s[1..]);
    }
  }

  /** `lstrip` is the only suffix with blanks before it that does not start with one. */
  lemma LStripUnique(s: string, t: string)
    requires |t| <= |s| && t == s[|s| - |t|..] && AllSpace(s[..|s| - |t|])
    requires t != [] ==> !IsSpace(t[0])
    ensures LStrip(s) == t
  {
    var r := LStrip(s);
    SpacesBefore(s, |s| - |r|);
    SpacesBefore(s, |s| - |t|);
    assert r != [] ==> r[0] == s[|s| - |r|];
    assert t != [] ==> t[0] == s[|s| - |t|];
  }

  /** `rstrip` is the only prefix with blanks after it that does not end with one. */
  lemma RStripUnique(s: string, t: string)
    requires t <= s && AllSpace(s[|t|..])
    requires t != [] ==> !IsSpace(t[|t| - 1])
    ensures RStrip(s) == t
  {
    var r := RStrip(s);
    SpacesAfter(s, |r|);
    SpacesAfter(s, |t|);
    assert r != [] ==> r[|r| - 1] == s[|r| - 1];
    assert t != [] ==> t[|t| - 1] == s[|t| - 1];
  }

  lemma SpacesBefore(s: string, k: nat)
    requires k <= |s| && AllSpace(s[..k])
    ensures forall i :: 0 <= i < k ==> IsSpace(s[i])
  {
    forall i | 0 <= i < k ensures IsSpace(s[i]) {
      assert s[..k][i] == s[i];
    }
  }

  lemma SpacesAfter(s: string, k: nat)
    requires k <= |s| && AllSpace(s[k..])
    ensures forall i :: k <= i < |s| ==> IsSpace(s[i])
  {
    forall i | k <= i < |s| ensures IsSpace(s[i]) {
      assert s[k..][i - k] == s[i];
    }
  }

  /** Text in front of a kept end survives `rstrip` unchanged. */
  lemma RStripAppend(a: string, x: string)
    requires RStrip(x) != [] || (a != [] && !IsSpace(a[|a| - 1]))
    ensures RStrip(a + x) == a + RStrip(x)
  {
    var t := a + RStrip(x);
    assert (a + x)[..|t|] == t;
    assert (a + x)[|t|..] == x[|RStrip(x)|..];
    RStripUnique(a + x, t);
  }

  /** Text that starts with a non-blank keeps a non-empty `rstrip`. */
  lemma RStripNonEmpty(x: string)
    requires x != [] && !IsSpace(x[0])
    ensures RStrip(x) != []
  {
    SpacesAfter(x, |RStrip(x)|);
  }

  /** Collapsing and `lstrip` commute. */
  lemma CollapseLStrip(s: string)
    ensures Collapse(LStrip(s)) == LStrip(Collapse(s))
  {
    if s != [] && IsSpace(s[0]) {
      var c := Collapse(LStrip(s));
      assert Collapse(s) == " " + c;
      LStripUnique(" " + c, c);
    } else {
      LStripUnique(s, s);
      LStripUnique(Collapse(s), Collapse(s));
    }
  }

  /** Collapsing and `rstrip` commute. */
  lemma {:induction false} CollapseRStrip(s: string)
    ensures Collapse(RStrip(s)) == RStrip(Collapse(s))
    decreases |s|
  {
    if s == [] {
      RStripUnique([], []);
    } else if IsSpace(s[0]) && LStrip(s) == [] {
      CollapseRStripBlank(s);
    } else if IsSpace(s[0]) {
      CollapseRStripSpaceHead(s);
      CollapseRStrip(LStrip(s));
    } else {
      CollapseRStripCharHead(s);
      CollapseRStrip(s[1..]);
    }
  }

  lemma CollapseRStripBlank(s: string)
    requires s != [] && IsSpace(s[0]) && LStrip(s) == []
    ensures Collapse(RStrip(s)) == [] == RStrip(Collapse(s))
  {
    assert Collapse(s) == " ";
    RStripUnique(s, []);
    RStripUnique(" ", []);
  }

  lemma CollapseRStripSpaceHead(s: string)
    requires s != [] && IsSpace(s[0]) && LStrip(s) != []
    ensures Collapse(RStrip(s)) == " " + Collapse(RStrip(LStrip(s)))
    ensures RStrip(Collapse(s)) == " " + RStrip(Collapse(LStrip(s)))
  {
    var rest := LStrip(s);
    var e := |s| - |rest|;
    RStripNonEmpty(rest);
    assert s == s[..e] + rest;
    RStripAppend(s[..e], rest);
    var t := RStrip(s);
    assert t == s[..e] + RStrip(rest) && IsSpace(t[0]);
    LStripUnique(t, RStrip(rest));
    assert Collapse(s) == " " + Collapse(rest);
    RStripNonEmpty(Collapse(rest));
    RStripAppend(" ", Collapse(rest));
  }

  lemma CollapseRStripCharHead(s: string)
    requires s != [] && !IsSpace(s[0])
    ensures Collapse(RStrip(s)) == [s[0]] + Collapse(RStrip(s[1..]))
    ensures RStrip(Collapse(s)) == [s[0]] + RStrip(Collapse(s[1..]))
  {
    assert s == [s[0]] + s[1..];
    RStripAppend([s[0]], s[1..]);
    var t := RStrip(s);
    assert t[1..] == RStrip(s[1..]);
    RStripAppend([s[0]], Collapse(s[1..]));
  }

  /** Stripping then collapsing gives what collapsing then stripping gives. */
  lemma CollapseStrip(s: string)
    ensures Collapse(Strip(s)) == Strip(Collapse(s))
  {
    CollapseRStrip(LStrip(s));
    CollapseLStrip(s);
  }

  lemma InfixKeepsSpacing(s: string, a: nat, b: nat)
    requires a <= b <= |s|
    requires NoDoubleSpace(s) && OnlyBlanks(s)
    ensures NoDoubleSpace(s[a..b]) && OnlyBlanks(s[a..b])
  {
    var t := s[a..b];
    forall i | 0 <= i < |t| - 1 ensures !(IsSpace(t[i]) && IsSpace(t[i + 1])) {
      assert t[i] == s[a + i] && t[i + 1] == s[a + i + 1];
    }
    forall i | 0 <= i < |t| ensures IsSpace(t[i]) ==> t[i] == ' ' {
      assert t[i] == s[a + i];
    }
  }

  /** Stripping text with single blanks keeps it so. */
  lemma StripKeepsSpacing(s: string)
    requires NoDoubleSpace(s) && OnlyBlanks(s)
    ensures NoDoubleSpace(Strip(s)) && OnlyBlanks(Strip(s))
  {
    InfixKeepsSpacing(s, SpaceEnd(s, 0), SpaceEnd(s, 0) + |Strip(s)|);
  }

  /** A property of every character survives `Strip`. */
  lemma StripKeeps(s: string, p: char -> bool)
    requires forall i :: 0 <= i < |s| ==> p(s[i])
    ensures forall i :: 0 <= i < |Strip(s)| ==> p(Strip(s)[i])
  {
    var a := SpaceEnd(s, 0);
    var r := Strip(s);
    assert a + |r| <= |s| && r == s[a..a + |r|];
    forall i | 0 <= i < |r| ensures p(r[i]) {
      assert r[i] == s[a + i];
    }
  }

  /** A property of every character that the blank also has survives `Collapse`. */
  lemma {:induction false} CollapseKeeps(s: string, p: char -> bool)
    requires p(' ')
    requires forall i :: 0 <= i < |s| ==> p(s[i])
    ensures forall i :: 0 <= i < |Collapse(s)| ==> p(Collapse(s)[i])
    decreases |s|
  {
    if s != [] {
      if IsSpace(s[0]) {
        var rest := LStrip(s);
        forall i | 0 <= i < |rest| ensures p(rest[i]) {
          assert rest[i] == s[|s| - |rest| + i];
        }
        CollapseKeeps(rest, p);
        assert Collapse(s) == " " + Collapse(rest);
      } else {
        forall i | 0 <= i < |s| - 1 ensures p(s[1..][i]) {
          assert s[1..][i] == s[i + 1];
        }
        CollapseKeeps(s[1..], p);
        assert Collapse(s) == [s[0]] + Collapse(s[1..]);
      }
    }
  }

  /** Cutting a slice in two. */
  lemma SliceSplit(s: string, a: nat, b: nat, c: nat)
    requires a <= b <= c <= |s|
    ensures s[a..c] == s[a..b] + s[b..c]
  {
    var l, r := s[a..b], s[b..c];
    forall i | 0 <= i < c - a ensures s[a..c][i] == (l + r)[i] {
      if i < b - a { assert (l + r)[i] == l[i]; } else { assert (l + r)[i] == r[i - (b - a)]; }
    }
  }

  /** Concatenation is associative (stated once; the solver is slow to find it on strings). */
  lemma ConcatAssoc(a: string, b: string, c: string)
    ensures a + b + c == a + (b + c)
  {
  }

  /** A suffix cut at two points. */
  lemma SuffixSplit(s: string, a: nat, b: nat)
    requires a <= b <= |s|
    ensures s[a..] == s[a..b] + s[b..]
  {
    SliceSplit(s, a, b, |s|);
    assert s[a..] == s[a..|s|] && s[b..] == s[b..|s|];
  }

  /** ASCII lower-casing of one character. */
  function LowerChar(c: char): char {
    if 'A' <= c <= 'Z' then (c as int + 32) as char else c
  }

  /** `str.lower()` on ASCII letters. */
  function Lower(s: string): (r: string)
    ensures |r| == |s|
    ensures forall i :: 0 <= i < |s| ==> r[i] == LowerChar(s[i])
  {
    seq(|s|, i requires 0 <= i < |s| => LowerChar(s[i]))
  }

  function UpperChar(c: char): char {
    if 'a' <= c <= 'z' then (c as int - 32) as char else c
  }

  /** A cased character, in ASCII: a letter. */
  predicate IsLetter(c: char) {
    'A' <= c <= 'Z' || 'a' <= c <= 'z'
  }

  /** The character `str.title()` puts at `i`: upper case at a word start, lower case elsewhere. */
  function TitleChar(s: string, i: nat): char
    requires i < |s|
  {
    if i == 0 || !IsLetter(s[i - 1]) then UpperChar(s[i]) else LowerChar(s[i])
  }

  /** `str.title()` on ASCII. */
  function Title(s: string): (r: string)
    ensures |r| == |s|
  {
    seq(|s|, i requires 0 <= i < |s| => TitleChar(s, i))
  }

  lemma TitleCharMeaning(s: string, i: nat)
    requires i < |s|
    ensures var c := TitleChar(s, i);
      && (IsLetter(c) <==> IsLetter(s[i]))
      && (!IsLetter(s[i]) ==> c == s[i])
      && LowerChar(c) == LowerChar(s[i])
      && (IsLetter(s[i]) ==> ('A' <= c <= 'Z' <==> i == 0 || !IsLetter(s[i - 1])))
  {
  }

  /**
   * `str.title()`: letters stay the same letters and non-letters stay as
   * they are; a letter with no letter before it (a word start) is upper
   * case, every other letter lower case.
   */
  lemma TitleMeaning(s: string)
    ensures forall i :: 0 <= i < |s| ==> (IsLetter(Title(s)[i]) <==> IsLetter(s[i]))
    ensures forall i :: 0 <= i < |s| && !IsLetter(s[i]) ==> Title(s)[i] == s[i]
    ensures forall i :: 0 <= i < |s| ==> LowerChar(Title(s)[i]) == LowerChar(s[i])
    ensures forall i :: 0 <= i < |s| && IsLetter(s[i]) ==> ('A' <= Title(s)[i] <= 'Z' <==> i == 0 || !IsLetter(s[i - 1]))
  {
    forall i | 0 <= i < |s| ensures var c := Title(s)[i];
      && (IsLetter(c) <==> IsLetter(s[i]))
      && (!IsLetter(s[i]) ==> c == s[i])
      && LowerChar(c) == LowerChar(s[i])
      && (IsLetter(s[i]) ==> ('A' <= c <= 'Z' <==> i == 0 || !IsLetter(s[i - 1])))
    {
      TitleCharMeaning(s, i);
    }
  }

  /** Title-casing twice is title-casing once. */
  lemma TitleIdempotent(s: string)
    ensures Title(Title(s)) == Title(s)
  {
    var t := Title(s);
    TitleMeaning(s);
    TitleMeaning(t);
    forall i | 0 <= i < |s| ensures Title(t)[i] == t[i] {
      if IsLetter(s[i]) {
        assert LowerChar(Title(t)[i]) == LowerChar(t[i]);
      }
    }
  }

  /** `sub in s`. */
  predicate Contains(s: string, sub: string)
    decreases |s|
  {
    sub <= s || (s != [] && Contains(s[1..], sub))
  }

  /** `sub` occurs in `s` starting at index `i`. */
  predicate OccursAt(s: string, sub: string, i: int) {
    0 <= i <= |s| - |sub| && s[i..i + |sub|] == sub
  }

  /** `Contains` holds exactly when `sub` occurs at some index. */
  lemma {:induction false} ContainsIff(s: string, sub: string)
    ensures Contains(s, sub) <==> exists i :: OccursAt(s, sub, i)
    decreases |s|
  {
    if sub <= s {
      assert OccursAt(s, sub, 0);
    } else if s != [] {
      ContainsIff(s[1..], sub);
      if exists i :: OccursAt(s, sub, i) {
        var i :| OccursAt(s, sub, i);
        assert i != 0;
        assert OccursAt(s[1..], sub, i - 1);
      }
      if Contains(s[1..], sub) {
        var j :| OccursAt(s[1..], sub, j);
        assert OccursAt(s, sub, j + 1);
      }
    }
  }

  /** Number of occurrences of `c` in `s`. */
  function Count(s: string, c: char): nat {
    if s == [] then 0 else (if s[0] == c then 1 else 0) + Count(s[1..], c)
  }

  lemma {:induction false} CountAppend(a: string, b: string, c: char)
    ensures Count(a + b, c) == Count(a, c) + Count(b, c)
  {
    if a == [] {
      assert a + b == b;
    } else {
      assert (a + b)[1..] == a[1..] + b;
      CountAppend(a[1..], b, c);
    }
  }

  /** `sep.join(pieces)`. */
  function Join(pieces: seq<string>, sep: string): string {
    if pieces == [] then []
    else if |pieces| == 1 then pieces[0]
    else pieces[0] + sep + Join(pieces[1..], sep)
  }

  /** Index of the first `c` in `s`, which must occur. */
  function IndexOf(s: string, c: char): (i: nat)
    requires c in s
    ensures i < |s| && s[i] == c && c !in s[..i]
  {
    if s[0] == c then 0 else 1 + IndexOf(s[1..], c)
  }

  /** `s.split(sep)` for a one-character separator. */
  function Split(s: string, sep: char): (r: seq<string>)
    ensures r != []
    ensures forall k :: 0 <= k < |r| ==> sep !in r[k]
    ensures Join(r, [sep]) == s
    decreases |s|
  {
    if sep !in s then [s]
    else
      var i := IndexOf(s, sep);
      var t := Split(s[i + 1..], sep);
      assert ([s[..i]] + t)[1..] == t;
      assert s == s[..i] + [sep] + s[i + 1..];
      [s[..i]] + t
  }

  /** `s.split(sep)` has one more piece than `s` has separators. */
  lemma {:induction false} SplitCount(s: string, sep: char)
    ensures |Split(s, sep)| == Count(s, sep) + 1
    decreases |s|
  {
    if sep !in s {
      CountAbsent(s, sep);
    } else {
      var i := IndexOf(s, sep);
      SplitCount(s[i + 1..], sep);
      assert s == s[..i] + ([sep] + s[i + 1..]);
      CountAppend(s[..i], [sep] + s[i + 1..], sep);
      CountAppend([sep], s[i + 1..], sep);
      CountAbsent(s[..i], sep);
    }
  }

  lemma CountAbsent(s: string, c: char)
    requires c !in s
    ensures Count(s, c) == 0
  {
    if s != [] {
      assert c !in s[1..] by {
        forall k | 0 <= k < |s| - 1 ensures s[1..][k] != c {
          assert s[1..][k] == s[k + 1];
        }
      }
      CountAbsent(s[1..], c);
    }
  }

  /** The first `c` of `a + [c] + b` is the one after `a` when `a` has none. */
  lemma {:induction false} IndexOfAfter(a: string, c: char, b: string)
    requires c !in a
    ensures c in a + [c] + b && IndexOf(a + [c] + b, c) == |a|
    decreases |a|
  {
    var s := a + [c] + b;
    assert s[|a|] == c;
    if a != [] {
      assert s[1..] == a[1..] + [c] + b;
      assert a[0] in a;
      IndexOfAfter(a[1..], c, b);
    }
  }

  /** Splitting undoes `Join` when no piece holds the separator. */
  lemma {:induction false} SplitJoin(pieces: seq<string>, sep: char)
    requires pieces != []
    requires forall k :: 0 <= k < |pieces| ==> sep !in pieces[k]
    ensures Split(Join(pieces, [sep]), sep) == pieces
    decreases |pieces|
  {
    var j := Join(pieces, [sep]);
    if |pieces| > 1 {
      var p0 := pieces[0];
      var tail := Join(pieces[1..], [sep]);
      assert j == p0 + [sep] + tail;
      IndexOfAfter(p0, sep, tail);
      SplitJoin(pieces[1..], sep);
      assert Split(j, sep) == [p0] + Split(tail, sep) by {
        var i := IndexOf(j, sep);
        assert j[..i] == p0 && j[i + 1..] == tail;
      }
      assert pieces == [p0] + pieces[1..];
    }
  }

  /** Character of one decimal digit. */
  function DigitChar(d: nat): char
    requires d < 10
  {
    ['0', '1', '2', '3', '4', '5', '6', '7', '8', '9'][d]
  }

  function DigitOf(c: char): nat
    requires IsDigit(c)
  {
    c as int - '0' as int
  }

  /** `str(n)` for a natural number. */
  function DecNat(n: nat): (r: string)
    ensures IsDigitString(r)
    ensures r[0] == '0' ==> n == 0 && |r| == 1
  {
    if n < 10 then [DigitChar(n)] else DecNat(n / 10) + [DigitChar(n % 10)]
  }

  /** `str(i)` for any integer. */
  function Dec(i: int): string {
    if i < 0 then "-" + DecNat(-i) else DecNat(i)
  }

  /** The value of a run of decimal digits. */
  function DigitsValue(s: string): nat
    requires AllDigits(s)
  {
    if s == [] then 0
    else DigitsValue(s[..|s| - 1]) * 10 + DigitOf(s[|s| - 1])
  }

  /** Reading back what `DecNat` writes gives the number. */
  lemma {:induction false} DigitsValueDecNat(n: nat)
    ensures DigitsValue(DecNat(n)) == n
  {
    var r := DecNat(n);
    if n >= 10 {
      DigitsValueDecNat(n / 10);
      assert r[..|r| - 1] == DecNat(n / 10);
    }
  }

  /** `str` is injective on naturals. */
  lemma DecNatInjective(m: nat, n: nat)
    requires DecNat(m) == DecNat(n)
    ensures m == n
  {
    DigitsValueDecNat(m);
    DigitsValueDecNat(n);
  }

  /** `int()` of text without surrounding whitespace: an optional sign and decimal digits. */
  function ParseTrimmed(t: string): Option<int> {
    if t != [] && (t[0] == '-' || t[0] == '+') then
      var d := t[1..];
      if IsDigitString(d) then Some(if t[0] == '-' then -(DigitsValue(d) as int) else DigitsValue(d) as int) else None
    else if IsDigitString(t) then Some(DigitsValue(t))
    else None
  }

  /** Python's `int(s)` for base 10: `None` where Python raises `ValueError`. */
  function ParseInt(s: string): Option<int> {
    ParseTrimmed(Strip(s))
  }

  /** Text without whitespace at either end is its own `strip()`. */
  lemma StripUntrimmed(s: string)
    requires s != [] && !IsSpace(s[0]) && !IsSpace(s[|s| - 1])
    ensures Strip(s) == s
  {
    assert LStrip(s) == s;
    assert RStrip(s) == s;
  }

  lemma ParseTrimmedDecNat(n: nat)
    ensures ParseTrimmed(DecNat(n)) == Some(n as int)
    ensures ParseTrimmed("-" + DecNat(n)) == Some(-(n as int))
  {
    var d := DecNat(n);
    DigitsValueDecNat(n);
    assert ("-" + d)[1..] == d;
  }

  /** `str(i)` has no whitespace at either end, and reads back as `i`. */
  lemma DecTrimmed(i: int)
    ensures var t := Dec(i);
      t != [] && !IsSpace(t[0]) && !IsSpace(t[|t| - 1]) && ParseTrimmed(t) == Some(i)
  {
    var n: nat := if i < 0 then -i else i;
    var d := DecNat(n);
    ParseTrimmedDecNat(n);
    var t := Dec(i);
    assert t[|t| - 1] == d[|d| - 1];
  }

  /** `int(str(i)) == i`. */
  lemma ParseIntDec(i: int)
    ensures ParseInt(Dec(i)) == Some(i)
  {
    DecTrimmed(i);
    StripUntrimmed(Dec(i));
  }

  /** Blanks around a text that starts and ends with a non-blank are what `strip()` removes. */
  lemma StripPadded(pre: string, t: string, post: string)
    requires AllSpace(pre) && AllSpace(post)
    requires t != [] && !IsSpace(t[0]) && !IsSpace(t[|t| - 1])
    ensures Strip(pre + t + post) == t
  {
    var s := pre + t + post;
    assert s[|s| - |t + post|..] == t + post && s[..|s| - |t + post|] == pre;
    LStripUnique(s, t + post);
    assert (t + post)[..|t|] == t && (t + post)[|t|..] == post;
    RStripUnique(t + post, t);
  }

  /** `int()` ignores whitespace around a printed integer. */
  lemma ParseIntPadded(i: int, pre: string, post: string)
    requires AllSpace(pre) && AllSpace(post)
    ensures ParseInt(pre + Dec(i) + post) == Some(i)
  {
    DecTrimmed(i);
    StripPadded(pre, Dec(i), post);
  }

  /** What `int()` accepts: after `strip()`, digits with at most a leading sign. */
  lemma ParseIntShape(s: string)
    ensures ParseInt(s).Some? ==>
      var t := Strip(s);
      && t != []
      && (IsDigit(t[0]) || t[0] == '-' || t[0] == '+')
      && forall k :: 0 < k < |t| ==> IsDigit(t[k])
  {
    var t := Strip(s);
    if ParseInt(s).Some? && t[0] in {'-', '+'} {
      forall k | 0 < k < |t| ensures IsDigit(t[k]) {
        assert t[1..][k - 1] == t[k];
      }
    }
  }

  /** Python's `<` on strings: lexicographic by code point. */
  predicate Less(a: string, b: string)
    decreases |a|
  {
    if a == [] then b != []
    else if b == [] then false
    else if a[0] != b[0] then a[0] < b[0]
    else Less(a[1..], b[1..])
  }

  lemma LessIrreflexive(a: string)
    ensures !Less(a, a)
  {
    if a != [] {
      LessIrreflexive(a[1..]);
    }
  }

  lemma {:induction false} LessTransitive(a: string, b: string, c: string)
    requires Less(a, b) && Less(b, c)
    ensures Less(a, c)
    decreases |a|
  {
    if a != [] && b != [] && c != [] && a[0] == b[0] && b[0] == c[0] {
      LessTransitive(a[1..], b[1..], c[1..]);
    }
  }

  lemma {:induction false} LessTotal(a: string, b: string)
    ensures a == b || Less(a, b) || Less(b, a)
    decreases |a|
  {
    if a != [] && b != [] && a[0] == b[0] {
      LessTotal(a[1..], b[1..]);
      if a[1..] == b[1..] {
        assert a == [a[0]] + a[1..] && b == [b[0]] + b[1..];
      }
    }
  }
}
