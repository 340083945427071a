/**
  The few Python `str` operations the core relies on, over `seq<char>`:
  `isspace`, ASCII `lower`, `strip`/`lstrip`/`rstrip`, `startswith`,
  `endswith`, `in`, `replace`, `split(sep)` and the argument-less `split()`.
 */
module PyStr {

  /** Python's `str.isspace` for one character (the Unicode White_Space
      characters plus the ASCII separators 0x1c..0x1f). */
  predicate IsSpace(c: char) {
    || c == ' '
    || ('\t' <= c <= '\r')
    || ('\U{1c}' <= c <= '\U{1f}')
    || c == '\U{85}' || c == '\U{a0}' || c == '\U{1680}'
    || ('\U{2000}' <= c <= '\U{200a}')
    || c == '\U{2028}' || c == '\U{2029}' || c == '\U{202f}'
    || c == '\U{205f}' || c == '\U{3000}'
  }

  predicate IsUpper(c: char) {
    'A' <= c <= 'Z'
  }

  function LowerChar(c: char): (r: char)
    ensures !IsUpper(r)
    ensures !IsUpper(c) ==> r == c
    ensures IsUpper(c) ==> r as int == c as int + 32
  {
    if IsUpper(c) then (c as int + 32) as char else c
  }

  /** `s.lower()`, restricted to the ASCII letters. */
  function Lower(s: string): (r: string)
    ensures |r| == |s|
    ensures forall i :: 0 <= i < |s| ==> r[i] == LowerChar(s[i])
    ensures forall i :: 0 <= i < |r| ==> !IsUpper(r[i])
  {
    seq(|s|, i requires 0 <= i < |s| => LowerChar(s[i]))
  }

  /** `s.lstrip()`: the suffix left once leading whitespace is dropped. */
  function LStrip(s: string): (r: string)
    ensures |r| <= |s|
    ensures r == [] || !IsSpace(r[0])
    ensures forall i :: 0 <= i < |s| - |r| ==> IsSpace(s[i])
    decreases |s|
  {
    if s != [] && IsSpace(s[0]) then LStrip(s[1..]) else s
  }

  /** What `s.lstrip()` leaves is a suffix of `s`. */
  lemma {:induction false} LStripIsSuffix(s: string)
    ensures LStrip(s) == s[|s| - |LStrip(s)|..]
    decreases |s|
  {
    if s != [] && IsSpace(s[0]) {
      LStripIsSuffix(s[1..]);
      assert s[1..][|s| - 1 - |LStrip(s)|..] == s[|s| - |LStrip(s)|..];
    }
  }

  /** `s.rstrip()`: the prefix left once trailing whitespace is dropped. */
  function RStrip(s: string): (r: string)
    ensures |r| <= |s|
    ensures r == [] || !IsSpace(r[|r| - 1])
    ensures forall i :: |r| <= i < |s| ==> IsSpace(s[i])
    decreases |s|
  {
    if s != [] && IsSpace(s[|s| - 1]) then RStrip(s[..|s| - 1]) else s
  }

  /** `s.rstrip()` is a prefix of `s`. */
  lemma {:induction false} RStripIsPrefix(s: string)
    ensures RStrip(s) == s[..|RStrip(s)|]
    decreases |s|
  {
    if s != [] && IsSpace(s[|s| - 1]) {
      RStripIsPrefix(s[..|s| - 1]);
      assert s[..|s| - 1][..|RStrip(s)|] == s[..|RStrip(s)|];
    }
  }

  /** A trailing blank does not survive right-stripping. */
  lemma RStripDropsSpace(s: string, c: char)
    requires IsSpace(c)
    ensures RStrip(s + [c]) == RStrip(s)
  {
    var t := s + [c];
    assert t[..|t| - 1] == s;
  }

  /** `s.strip()`. */
  function Strip(s: string): (r: string)
    ensures |r| <= |s|
    ensures r == [] || (!IsSpace(r[0]) && !IsSpace(r[|r| - 1]))
    ensures s == [] || (!IsSpace(s[0]) && !IsSpace(s[|s| - 1])) ==> r == s
  {
    RStripIsPrefix(LStrip(s));
    RStrip(LStrip(s))
  }

  predicate StartsWith(s: string, prefix: string) {
    |prefix| <= |s| && s[..|prefix|] == prefix
  }

  predicate EndsWith(s: string, suffix: string) {
    |suffix| <= |s| && s[|s| - |suffix|..] == suffix
  }

  /** Python's `sub in s`. */
  predicate Contains(s: string, sub: string)
    decreases |s|
  {
    StartsWith(s, sub) || (s != [] && Contains(s[1..], sub))
  }

  /** `sub` occurs in `s` starting at index `i`. */
  predicate OccursAt(s: string, sub: string, i: int) {
    0 <= i <= |s| - |sub| && s[i..i + |sub|] == sub
  }

  /** The recursive `Contains` holds exactly when `sub` occurs at some
      position of `s`. */
  lemma {:induction false} ContainsAt(s: string, sub: string)
    ensures Contains(s, sub) <==> exists i :: OccursAt(s, sub, i)
    decreases |s|
  {
    if s == [] {
      if exists i :: OccursAt(s, sub, i) {
        var i :| OccursAt(s, sub, i);
        assert StartsWith(s, sub);
      }
      if Contains(s, sub) {
        assert OccursAt(s, sub, 0);
      }
    } else {
      ContainsAt(s[1..], sub);
      if StartsWith(s, sub) {
        assert OccursAt(s, sub, 0);
      } else if Contains(s[1..], sub) {
        var i :| OccursAt(s[1..], sub, i);
        assert s[i + 1..i + 1 + |sub|] == s[1..][i..i + |sub|];
        assert OccursAt(s, sub, i + 1);
      } else {
        forall i | 0 < i <= |s| - |sub| ensures !OccursAt(s, sub, i) {
          var j := i - 1;
          assert s[1..][j..j + |sub|] == s[j + 1..j + 1 + |sub|];
          assert !OccursAt(s[1..], sub, j);
        }
      }
    }
  }

  /** `s.replace(pat, rep)` for a non-empty pattern: occurrences are found
      left to right and do not overlap. */
  function Replace(s: string, pat: string, rep: string): (r: string)
    requires |pat| > 0
    ensures !Contains(s, pat) ==> r == s
    decreases |s|
  {
    if |s| < |pat| then s
    else if s[..|pat|] == pat then rep + Replace(s[|pat|..], pat, rep)
    else [s[0]] + Replace(s[1..], pat, rep)
  }

  /** The first index of `c` in `s`. */
  function IndexOf(s: string, c: char): (i: nat)
    requires c in s
    ensures i < |s| && s[i] == c && c !in s[..i]
  {
    if s[0] == c then 0 else 1 + IndexOf(s[1..], c)
  }

  /** `s.split(sep)` for a one-character separator: never empty, and no
      piece contains the separator. */
  function Split(s: string, sep: char): (r: seq<string>)
    ensures |r| >= 1
    ensures forall k :: 0 <= k < |r| ==> sep !in r[k]
    decreases |s|
  {
    if sep !in s then [s]
    else
      var i := IndexOf(s, sep);
      [s[..i]] + Split(s[i + 1..], sep)
  }

  /** `sep.join(parts)`. */
  function Join(parts: seq<string>, sep: char): string
  {
    if parts == [] then []
    else if |parts| == 1 then parts[0]
    else parts[0] + [sep] + Join(parts[1..], sep)
  }

  /** Splitting and joining again on the same separator gives the text back. */
  lemma {:induction false} JoinSplit(s: string, sep: char)
    ensures Join(Split(s, sep), sep) == s
    decreases |s|
  {
    if sep in s {
      var i := IndexOf(s, sep);
      var rest := Split(s[i + 1..], sep);
      JoinSplit(s[i + 1..], sep);
      assert Split(s, sep) == [s[..i]] + rest;
      assert ([s[..i]] + rest)[1..] == rest;
      assert Join(Split(s, sep), sep) == s[..i] + [sep] + Join(rest, sep);
      assert s == s[..i] + [sep] + s[i + 1..];
    }
  }

  /** Length of the longest suffix of `s` without whitespace. */
  function TrailingWordLength(s: string): (n: nat)
    ensures n <= |s|
    ensures forall i :: |s| - n <= i < |s| ==> !IsSpace(s[i])
    ensures n == |s| || IsSpace(s[|s| - n - 1])
    decreases |s|
  {
    if s == [] || IsSpace(s[|s| - 1]) then 0 else 1 + TrailingWordLength(s[..|s| - 1])
  }

  predicate AllSpace(s: string) {
    forall i :: 0 <= i < |s| ==> IsSpace(s[i])
  }

  predicate IsWord(w: string) {
    w != [] && forall i :: 0 <= i < |w| ==> !IsSpace(w[i])
  }

  /** `s.split()`: the maximal runs of non-whitespace characters, in order.
      Defined from the right end, which yields the same list. */
  function Words(s: string): (r: seq<string>)
    ensures forall k :: 0 <= k < |r| ==> IsWord(r[k])
    ensures r == [] <==> AllSpace(s)
    decreases |s|
  {
    var t := RStrip(s);
    if t == [] then []
    else
      RStripIsPrefix(s);
      var n := TrailingWordLength(t);
      Words(t[..|t| - n]) + [t[|t| - n..]]
  }

  /** A text that is one word splits into exactly that word. */
  lemma WordsOfWord(w: string)
    requires IsWord(w)
    ensures Words(w) == [w]
  {
    assert RStrip(w) == w;
    assert TrailingWordLength(w) == |w|;
    assert w[..0] == [] && w[0..] == w;
  }

  /** A blank character separates words: `split()` of the two sides
      together is the two lists one after the other. */
  lemma {:induction false} WordsAcrossSpace(a: string, c: char, b: string)
    requires IsSpace(c)
    ensures Words(a + [c] + b) == Words(a) + Words(b)
    decreases |b|
  {
    if AllSpace(b) {
      WordsAcrossBlank(a, c, b);
    } else {
      var t := RStrip(b);
      var n := TrailingWordLength(t);
      var h, w := t[..|t| - n], t[|t| - n..];
      WordsSplitLast(a, c, b, t, n);
      WordsAcrossSpace(a, c, h);
      SnocAssociates(Words(a), Words(h), w);
    }
  }

  lemma SnocAssociates(x: seq<string>, y: seq<string>, w: string)
    ensures (x + y) + [w] == x + (y + [w])
  {
  }

  /** Leading blanks add no words. */
  lemma WordsAfterLeadingBlank(c: char, b: string)
    requires IsSpace(c)
    ensures Words([c] + b) == Words(b)
  {
    WordsAcrossSpace([], c, b);
    assert [] + [c] + b == [c] + b;
    assert Words([]) == [];
  }

  /** A word between two blanks is one entry of `split()`, between the
      words before it and the words after it. */
  lemma WordBetweenBlanks(a: string, c: char, w: string, d: char, b: string)
    requires IsSpace(c) && IsSpace(d) && IsWord(w)
    ensures Words(a + [c] + w + [d] + b) == Words(a) + [w] + Words(b)
  {
    WordsAcrossSpace(a + [c] + w, d, b);
    WordsAcrossSpace(a, c, w);
    WordsOfWord(w);
  }

  /** Blanks after the separator add no words. */
  lemma WordsAcrossBlank(a: string, c: char, b: string)
    requires IsSpace(c) && AllSpace(b)
    ensures Words(a + [c] + b) == Words(a) + Words(b)
  {
    assert a + [c] + b == a + ([c] + b);
    WordsBlankTail(a, [c] + b);
  }

  /** The last word of `b` is also the last word of `a + [c] + b`. */
  lemma WordsSplitLast(a: string, c: char, b: string, t: string, n: nat)
    requires IsSpace(c) && !AllSpace(b) && t == RStrip(b) && n == TrailingWordLength(t)
    ensures n <= |t| && |t[..|t| - n]| < |b|
    ensures Words(b) == Words(t[..|t| - n]) + [t[|t| - n..]]
    ensures Words(a + [c] + b) == Words(a + [c] + t[..|t| - n]) + [t[|t| - n..]]
  {
    RStripNonBlank(b);
    TrailingWordNonEmpty(t);
    WordsStep(b, t, n);
    WordsAfterSpace(a + [c], b, t, n);
  }

  lemma RStripNonBlank(s: string)
    requires !AllSpace(s)
    ensures RStrip(s) != []
  {
    var i :| 0 <= i < |s| && !IsSpace(s[i]);
    assert i < |RStrip(s)|;
  }

  lemma TrailingWordNonEmpty(t: string)
    requires t != [] && !IsSpace(t[|t| - 1])
    ensures TrailingWordLength(t) > 0
  {
  }

  /** The last step of `Words`: the words before the trailing word, then it. */
  lemma WordsStep(s: string, t: string, n: nat)
    requires t == RStrip(s) && t != [] && n == TrailingWordLength(t)
    ensures Words(s) == Words(t[..|t| - n]) + [t[|t| - n..]]
  {
  }

  /** `Words` unfolded once, with the stripped text split at a known head. */
  lemma WordsStepAt(s: string, p: string, t: string, n: nat)
    requires RStrip(s) == p + t && t != [] && n == TrailingWordLength(p + t) && n <= |t|
    ensures Words(s) == Words(p + t[..|t| - n]) + [t[|t| - n..]]
  {
    WordsStep(s, p + t, n);
    ShiftedSlices(p, t, n);
  }

  /** After a blank, the trailing word of the whole is that of the tail. */
  lemma WordsAfterSpace(p: string, b: string, t: string, n: nat)
    requires p != [] && IsSpace(p[|p| - 1])
    requires !AllSpace(b) && t == RStrip(b) && n == TrailingWordLength(t)
    ensures Words(p + b) == Words(p + t[..|t| - n]) + [t[|t| - n..]]
  {
    RStripKeepsHead(p, b);
    TrailingWordAfterSpace(p, t);
    WordsStepAt(p + b, p, t, n);
  }

  lemma ShiftedSlices(p: string, t: string, n: nat)
    requires n <= |t|
    ensures (p + t)[|p + t| - n..] == t[|t| - n..]
    ensures (p + t)[..|p + t| - n] == p + t[..|t| - n]
  {
  }

  /** Trailing blanks add no words. */
  lemma WordsBlankTail(s: string, x: string)
    requires AllSpace(x)
    ensures Words(s + x) == Words(s)
  {
    RStripDropsBlankTail(s, x);
    WordsOfRStrip(s + x);
    WordsOfRStrip(s);
  }

  /** Trailing blanks do not change `rstrip()`. */
  lemma {:induction false} RStripDropsBlankTail(s: string, x: string)
    requires AllSpace(x)
    ensures RStrip(s + x) == RStrip(s)
    decreases |x|
  {
    if x == [] {
      assert s + x == s;
    } else {
      assert (s + x)[..|s + x| - 1] == s + x[..|x| - 1];
      RStripDropsBlankTail(s, x[..|x| - 1]);
    }
  }

  /** `rstrip()` of a text whose tail holds a non-blank keeps the head. */
  lemma {:induction false} RStripKeepsHead(p: string, q: string)
    requires !AllSpace(q)
    ensures RStrip(p + q) == p + RStrip(q)
    decreases |q|
  {
    if IsSpace(q[|q| - 1]) {
      assert (p + q)[..|p + q| - 1] == p + q[..|q| - 1];
      assert !AllSpace(q[..|q| - 1]) by {
        var i :| 0 <= i < |q| && !IsSpace(q[i]);
        assert q[..|q| - 1][i] == q[i];
      }
      RStripKeepsHead(p, q[..|q| - 1]);
    }
  }

  /** After a blank, the trailing word of a text is that of its tail. */
  lemma {:induction false} TrailingWordAfterSpace(p: string, q: string)
    requires p != [] && IsSpace(p[|p| - 1])
    ensures TrailingWordLength(p + q) == TrailingWordLength(q)
    decreases |q|
  {
    if q == [] {
      assert p + q == p;
    } else if !IsSpace(q[|q| - 1]) {
      assert (p + q)[..|p + q| - 1] == p + q[..|q| - 1];
      TrailingWordAfterSpace(p, q[..|q| - 1]);
    }
  }

  /** `split()` ignores trailing whitespace. */
  lemma WordsOfRStrip(s: string)
    ensures Words(RStrip(s)) == Words(s)
  {
    assert RStrip(RStrip(s)) == RStrip(s);
  }

  /** The last word of `s.split()` is the end of `s.rstrip()`: deleting
      `|last word|` characters from the end of the stripped text removes
      exactly that word, and nothing of it is whitespace. */
  lemma LastWordIsSuffix(s: string)
    requires Words(s) != []
    ensures EndsWith(RStrip(s), Words(s)[|Words(s)| - 1])
  {
  }
}
