/**
 * The Java string operations the services rely on, written out over `seq<char>`.
 * A `char` here is one Unicode scalar value; Java's `length()` and `substring`
 * count UTF-16 code units, and the two agree only on text inside the Basic
 * Multilingual Plane.
 */
module Text {
  import opened Wrappers

  // ---------------------------------------------------------------------------
  // Joining: String.join / Collectors.joining
  // ---------------------------------------------------------------------------

  /** The parts with `sep` between each pair of neighbours (empty for no parts). */
  function Join(parts: seq<string>, sep: string): string
    decreases |parts|
  {
    if |parts| == 0 then ""
    else if |parts| == 1 then parts[0]
    else Join(parts[..|parts| - 1], sep) + sep + parts[|parts| - 1]
  }

  /** Joining non-empty parts gives the empty string exactly when there are no parts. */
  lemma {:induction false} JoinEmpty(parts: seq<string>, sep: string)
    requires forall k :: 0 <= k < |parts| ==> parts[k] != ""
    ensures Join(parts, sep) == "" <==> |parts| == 0
  {
    if |parts| > 0 {
      assert |Join(parts, sep)| >= |parts[|parts| - 1]| > 0;
    }
  }

  /** Number of occurrences of `c` in `s`. */
  function Count(c: char, s: string): nat
    decreases |s|
  {
    if |s| == 0 then 0 else Count(c, s[..|s| - 1]) + (if s[|s| - 1] == c then 1 else 0)
  }

  /** Number of occurrences of `c` over all the parts. */
  function CountIn(c: char, parts: seq<string>): nat
    decreases |parts|
  {
    if |parts| == 0 then 0 else CountIn(c, parts[..|parts| - 1]) + Count(c, parts[|parts| - 1])
  }

  lemma {:induction false} CountConcat(c: char, a: string, b: string)
    ensures Count(c, a + b) == Count(c, a) + Count(c, b)
    decreases |b|
  {
    if |b| == 0 {
      assert a + b == a;
    } else {
      assert (a + b)[..|a + b| - 1] == a + b[..|b| - 1];
      CountConcat(c, a, b[..|b| - 1]);
    }
  }

  /** Joining n parts adds exactly n - 1 copies of the separator's characters. */
  lemma {:induction false} CountJoin(c: char, parts: seq<string>, sep: string)
    requires |parts| > 0
    ensures Count(c, Join(parts, sep)) == CountIn(c, parts) + (|parts| - 1) * Count(c, sep)
    decreases |parts|
  {
    if |parts| == 1 {
      assert parts[..0] == [];
    } else {
      var init := parts[..|parts| - 1];
      var last := parts[|parts| - 1];
      CountJoin(c, init, sep);
      CountConcat(c, Join(init, sep) + sep, last);
      CountConcat(c, Join(init, sep), sep);
      assert (|parts| - 1) * Count(c, sep) == (|parts| - 2) * Count(c, sep) + Count(c, sep);
    }
  }

  /** `String.valueOf(s)`, which is what `+` appends: the text, or `"null"` for a null reference. */
  function StringValueOf(s: Option<string>): string
  {
    if s.Some? then s.value else "null"
  }

  // ---------------------------------------------------------------------------
  // String.trim(): skips code units <= ' ' from the front, then backs over them from the end
  // ---------------------------------------------------------------------------

  /** Every character of `s` from `lo` up to `hi` is one that `trim()` strips. */
  predicate IsPadding(s: string, lo: int, hi: int)
  {
    forall k :: lo <= k < hi && 0 <= k < |s| ==> s[k] <= ' '
  }

  /** First index at or after `i` whose character is not padding (or `|s|`). */
  function SkipPadding(s: string, i: nat): (j: nat)
    requires i <= |s|
    ensures i <= j <= |s| && IsPadding(s, i, j)
    ensures j < |s| ==> s[j] > ' '
    decreases |s| - i
  {
    if i < |s| && s[i] <= ' ' then SkipPadding(s, i + 1) else i
  }

  /** Backing down from `j`, but not below `lo`, over trailing padding. */
  function BackOverPadding(s: string, lo: nat, j: nat): (k: nat)
    requires lo <= j <= |s|
    ensures lo <= k <= j && IsPadding(s, k, j)
    ensures k > lo ==> s[k - 1] > ' '
    decreases j
  {
    if lo < j && s[j - 1] <= ' ' then BackOverPadding(s, lo, j - 1) else j
  }

  /** `String.trim()`: the result neither starts nor ends with padding. */
  function Trim(s: string): (r: string)
    ensures |r| <= |s|
    ensures |r| > 0 ==> r[0] > ' ' && r[|r| - 1] > ' '
  {
    var st := SkipPadding(s, 0);
    s[st..BackOverPadding(s, st, |s|)]
  }

  /**
   * The trimmed text is a slice of `s`, and everything cut off on either side of
   * it is padding.
   */
  lemma TrimIsSlice(s: string)
    ensures exists i :: 0 <= i <= |s| - |Trim(s)| && s[i..i + |Trim(s)|] == Trim(s)
                        && IsPadding(s, 0, i) && IsPadding(s, i + |Trim(s)|, |s|)
  {
    var i := SkipPadding(s, 0);
    assert s[i..i + |Trim(s)|] == Trim(s);
  }

  // ---------------------------------------------------------------------------
  // Substring search: contains / lastIndexOf
  // ---------------------------------------------------------------------------

  /** `pat` occurs in `s` starting at index `k`. */
  predicate OccursAt(s: string, pat: string, k: int)
  {
    0 <= k && k + |pat| <= |s| && s[k..k + |pat|] == pat
  }

  /** The last occurrence of `pat` starting at or before `k`. */
  function LastIndexAtOrBelow(s: string, pat: string, k: int): (r: Option<nat>)
    ensures r.Some? ==> r.value <= k && OccursAt(s, pat, r.value)
                        && forall j :: r.value < j <= k ==> !OccursAt(s, pat, j)
    ensures r.None? ==> forall j :: j <= k ==> !OccursAt(s, pat, j)
    decreases k + 1
  {
    if k < 0 then None
    else if OccursAt(s, pat, k) then Some(k)
    else LastIndexAtOrBelow(s, pat, k - 1)
  }

  /**
   * `s.lastIndexOf(pat)`: `Some(k)` for the last occurrence, `None` (Java's -1)
   * when `pat` does not occur, so `s.contains(pat)` is `LastIndexOf(s, pat).Some?`.
   */
  function LastIndexOf(s: string, pat: string): (r: Option<nat>)
    ensures r.Some? ==> OccursAt(s, pat, r.value) && forall j :: r.value < j ==> !OccursAt(s, pat, j)
    ensures r.None? <==> forall j :: !OccursAt(s, pat, j)
  {
    LastIndexAtOrBelow(s, pat, |s| - |pat|)
  }

  // ---------------------------------------------------------------------------
  // Regex-free forms of the replacements in cleanHtml
  // ---------------------------------------------------------------------------

  /** Index of the first `c` in `s`. */
  function IndexOf(s: string, c: char): (r: Option<nat>)
    ensures r.Some? ==> r.value < |s| && s[r.value] == c && c !in s[..r.value]
    ensures r.None? <==> c !in s
    decreases |s|
  {
    if |s| == 0 then None
    else if s[0] == c then Some(0)
    else
      var r := IndexOf(s[1..], c);
      if r.Some? then
        assert s[..r.value + 1] == [s[0]] + s[1..][..r.value];
        Some(r.value + 1)
      else None
  }

  /**
   * `replaceAll("<[^>]*>", "")`: from left to right, a `<` that has a `>` after it
   * starts a tag that is dropped up to and including the first such `>`; a `<` with
   * no `>` after it is kept. No `<` of the result is followed, anywhere later, by `>`.
   */
  function StripTags(s: string): (r: string)
    ensures |r| <= |s|
    ensures forall c :: c in r ==> c in s
    ensures forall i, j :: 0 <= i < j < |r| ==> !(r[i] == '<' && r[j] == '>')
    decreases |s|
  {
    if |s| == 0 then ""
    else
      var close := IndexOf(s[1..], '>');
      if s[0] == '<' && close.Some? then
        StripTags(s[1..][close.value + 1..])
      else
        [s[0]] + StripTags(s[1..])
  }

  /** Text before the first `<` is kept as it is. */
  lemma {:induction false} StripTagsKeepsText(a: string, b: string)
    requires '<' !in a
    ensures StripTags(a + b) == a + StripTags(b)
    decreases |a|
  {
    if |a| == 0 {
      EmptyConcat(a, b);
    } else {
      HeadTail(a, b);
      StripTagsKeepsText(a[1..], b);
      ConcatAssoc([a[0]], a[1..], StripTags(b));
    }
  }

  /**
   * A tag, from a `<` to the first `>` after it, is dropped with everything in it,
   * and the text before it is kept.
   */
  lemma StripTagsDropsTag(a: string, t: string, b: string)
    requires '<' !in a && '>' !in t
    ensures StripTags(a + "<" + t + ">" + b) == a + StripTags(b)
  {
    var s := "<" + t + ">" + b;
    TagParts(a, '<', t, '>', b);
    StripTagsKeepsText(a, s);
    FirstAfter(t, '>', b);
  }

  /** The first `c` of `t + [c] + b`, when `t` has none, is the one after `t`. */
  lemma FirstAfter(t: string, c: char, b: string)
    requires c !in t
    ensures IndexOf(t + [c] + b, c) == Some(|t|)
  {
    var s := t + [c] + b;
    assert s[|t|] == c;
    assert s[..|t|] == t;
  }

  lemma EmptyConcat<T>(a: seq<T>, b: seq<T>)
    requires |a| == 0
    ensures a + b == b
  {
  }

  lemma HeadTail<T>(a: seq<T>, b: seq<T>)
    requires |a| > 0
    ensures (a + b)[0] == a[0] && (a + b)[1..] == a[1..] + b && a == [a[0]] + a[1..]
  {
  }

  lemma TagParts<T>(a: seq<T>, open: T, t: seq<T>, close: T, b: seq<T>)
    ensures a + [open] + t + [close] + b == a + ([open] + t + [close] + b)
    ensures ([open] + t + [close] + b)[0] == open
    ensures ([open] + t + [close] + b)[1..] == t + [close] + b
    ensures (t + [close] + b)[|t| + 1..] == b
  {
    assert ([open] + t + [close] + b)[1..] == t + [close] + b;
  }

  /** Without any `>`, no `<` starts a tag, so nothing is dropped. */
  lemma {:induction false} StripTagsUnclosed(s: string)
    requires '>' !in s
    ensures StripTags(s) == s
    decreases |s|
  {
    if |s| > 0 {
      assert forall c :: c in s[1..] ==> c in s;
      StripTagsUnclosed(s[1..]);
      assert s == [s[0]] + s[1..];
    }
  }

  /** `s.replace(target, replacement)`: every non-overlapping occurrence, left to right. */
  function Replace(s: string, target: string, replacement: string): (r: string)
    requires |target| > 0
    decreases |s|
  {
    if |s| < |target| then s
    else if s[..|target|] == target then replacement + Replace(s[|target|..], target, replacement)
    else [s[0]] + Replace(s[1..], target, replacement)
  }

  /** Replacing an absent target changes nothing. */
  lemma {:induction false} ReplaceAbsent(s: string, target: string, replacement: string)
    requires |target| > 0
    requires forall k :: !OccursAt(s, target, k)
    ensures Replace(s, target, replacement) == s
    decreases |s|
  {
    if |s| >= |target| {
      assert !OccursAt(s, target, 0);
      forall k ensures !OccursAt(s[1..], target, k) {
        if 0 <= k && k + |target| <= |s| - 1 {
          assert s[1..][k..k + |target|] == s[k + 1..k + 1 + |target|];
          assert !OccursAt(s, target, k + 1);
        }
      }
      ReplaceAbsent(s[1..], target, replacement);
    }
  }

  /** A replacement no longer than its target never makes the text longer. */
  lemma {:induction false} ReplaceShrinks(s: string, target: string, replacement: string)
    requires |target| > 0 && |replacement| <= |target|
    ensures |Replace(s, target, replacement)| <= |s|
    decreases |s|
  {
    if |s| >= |target| {
      if s[..|target|] == target {
        ReplaceShrinks(s[|target|..], target, replacement);
      } else {
        ReplaceShrinks(s[1..], target, replacement);
      }
    }
  }

  /** Java regex `\s`: space, tab, line feed, vertical tab, form feed, carriage return. */
  predicate IsSpace(c: char)
  {
    c == ' ' || c == '\t' || c == '\n' || c == '\U{000B}' || c == '\U{000C}' || c == '\r'
  }

  /** The only whitespace in `s` is `' '`. */
  predicate PlainSpacesOnly(s: string)
  {
    forall i :: 0 <= i < |s| && IsSpace(s[i]) ==> s[i] == ' '
  }

  /** No two neighbouring characters of `s` are both whitespace. */
  predicate SingleSpaced(s: string)
  {
    forall i, j :: 0 <= i < |s| && 0 <= j < |s| && j == i + 1 ==> !(IsSpace(s[i]) && IsSpace(s[j]))
  }

  /** `s` without its leading `\s` characters. */
  function DropSpaces(s: string): (r: string)
    ensures |r| <= |s| && r == s[|s| - |r|..]
    ensures |r| > 0 ==> !IsSpace(r[0])
    decreases |s|
  {
    if |s| > 0 && IsSpace(s[0]) then DropSpaces(s[1..]) else s
  }

  /**
   * `replaceAll("\\s+", " ")`: every maximal run of `\s` becomes one space. The
   * only whitespace left is `' '`, and no two whitespace characters are adjacent.
   */
  function CollapseSpaces(s: string): (r: string)
    ensures |r| <= |s|
    ensures PlainSpacesOnly(r) && SingleSpaced(r)
    ensures |r| > 0 && IsSpace(r[0]) ==> IsSpace(s[0])
    decreases |s|
  {
    if |s| == 0 then ""
    else if IsSpace(s[0]) then " " + CollapseSpaces(DropSpaces(s[1..]))
    else [s[0]] + CollapseSpaces(s[1..])
  }

  /** A run of `\s` is skipped up to the first character that is not one. */
  lemma {:induction false} DropSpacesRun(w: string, b: string)
    requires forall k :: 0 <= k < |w| ==> IsSpace(w[k])
    requires |b| == 0 || !IsSpace(b[0])
    ensures DropSpaces(w + b) == b
    decreases |w|
  {
    if |w| == 0 {
      EmptyConcat(w, b);
    } else {
      HeadTail(w, b);
      DropSpacesRun(w[1..], b);
    }
  }

  /** Text without whitespace is kept as it is. */
  lemma {:induction false} CollapseSpacesKeepsWord(a: string, b: string)
    requires forall k :: 0 <= k < |a| ==> !IsSpace(a[k])
    ensures CollapseSpaces(a + b) == a + CollapseSpaces(b)
    decreases |a|
  {
    if |a| == 0 {
      EmptyConcat(a, b);
    } else {
      HeadTail(a, b);
      CollapseSpacesKeepsWord(a[1..], b);
      ConcatAssoc([a[0]], a[1..], CollapseSpaces(b));
    }
  }

  /** A maximal run of whitespace becomes exactly one space. */
  lemma CollapseSpacesRun(w: string, b: string)
    requires |w| > 0 && forall k :: 0 <= k < |w| ==> IsSpace(w[k])
    requires |b| == 0 || !IsSpace(b[0])
    ensures CollapseSpaces(w + b) == " " + CollapseSpaces(b)
  {
    HeadTail(w, b);
    DropSpacesRun(w[1..], b);
  }

  /** `s` with every `\s` character removed. */
  function Unspaced(s: string): (r: string)
    ensures |r| <= |s|
    decreases |s|
  {
    if |s| == 0 then "" else (if IsSpace(s[0]) then "" else [s[0]]) + Unspaced(s[1..])
  }

  lemma {:induction false} UnspacedDropSpaces(s: string)
    ensures Unspaced(DropSpaces(s)) == Unspaced(s)
    decreases |s|
  {
    if |s| > 0 && IsSpace(s[0]) {
      UnspacedDropSpaces(s[1..]);
    }
  }

  /** Collapsing changes only whitespace: with it removed, input and result are the same text. */
  lemma {:induction false} CollapseSpacesKeepsText(s: string)
    ensures Unspaced(CollapseSpaces(s)) == Unspaced(s)
    decreases |s|
  {
    if |s| > 0 {
      if IsSpace(s[0]) {
        var rest := DropSpaces(s[1..]);
        CollapseSpacesKeepsText(rest);
        UnspacedDropSpaces(s[1..]);
        assert (" " + CollapseSpaces(rest))[1..] == CollapseSpaces(rest);
      } else {
        CollapseSpacesKeepsText(s[1..]);
        assert ([s[0]] + CollapseSpaces(s[1..]))[1..] == CollapseSpaces(s[1..]);
      }
    }
  }

  /** Collapsing adds no character but `' '`. */
  lemma {:induction false} CollapseSpacesChars(s: string)
    ensures forall c :: c in CollapseSpaces(s) ==> c == ' ' || c in s
    decreases |s|
  {
    if |s| > 0 {
      if IsSpace(s[0]) {
        var rest := DropSpaces(s[1..]);
        CollapseSpacesChars(rest);
        assert forall c :: c in rest ==> c in s;
      } else {
        CollapseSpacesChars(s[1..]);
        assert forall c :: c in s[1..] ==> c in s;
      }
    }
  }

  lemma {:induction false} UnspacedAppend(x: string, y: string)
    ensures Unspaced(x + y) == Unspaced(x) + Unspaced(y)
    decreases |x|
  {
    if |x| == 0 {
      EmptyConcat(x, y);
    } else {
      HeadTail(x, y);
      UnspacedAppend(x[1..], y);
      ConcatAssoc(if IsSpace(x[0]) then "" else [x[0]], Unspaced(x[1..]), Unspaced(y));
    }
  }

  lemma {:induction false} UnspacedOfSpaces(w: string)
    requires forall k :: 0 <= k < |w| ==> IsSpace(w[k])
    ensures Unspaced(w) == ""
    decreases |w|
  {
    if |w| > 0 {
      UnspacedOfSpaces(w[1..]);
    }
  }

  /** Padding made only of whitespace holds no text. */
  lemma UnspacedOfPadding(s: string, lo: nat, hi: nat)
    requires lo <= hi <= |s| && IsPadding(s, lo, hi)
    requires forall k :: 0 <= k < |s| && s[k] <= ' ' ==> IsSpace(s[k])
    ensures Unspaced(s[lo..hi]) == ""
  {
    var w := s[lo..hi];
    forall k | 0 <= k < |w|
      ensures IsSpace(w[k])
    {
      assert w[k] == s[lo + k];
    }
    UnspacedOfSpaces(w);
  }

  /** The text of three consecutive slices is the text of the whole. */
  lemma UnspacedSplit(s: string, i: nat, j: nat)
    requires i <= j <= |s|
    ensures Unspaced(s) == Unspaced(s[0..i]) + Unspaced(s[i..j]) + Unspaced(s[j..|s|])
  {
    SplitThree(s, i, j);
    UnspacedAppend(s[0..i] + s[i..j], s[j..|s|]);
    UnspacedAppend(s[0..i], s[i..j]);
  }

  lemma ConcatAssoc<T>(x: seq<T>, y: seq<T>, z: seq<T>)
    ensures x + y + z == x + (y + z)
  {
  }

  lemma SplitThree<T>(s: seq<T>, i: nat, j: nat)
    requires i <= j <= |s|
    ensures s == s[0..i] + s[i..j] + s[j..|s|]
  {
  }

  /** When every character `trim()` could cut is whitespace, trimming removes no text. */
  lemma TrimKeepsText(s: string)
    requires forall k :: 0 <= k < |s| && s[k] <= ' ' ==> IsSpace(s[k])
    ensures Unspaced(Trim(s)) == Unspaced(s)
  {
    var i := SkipPadding(s, 0);
    var j := BackOverPadding(s, i, |s|);
    UnspacedSplit(s, i, j);
    UnspacedOfPadding(s, 0, i);
    UnspacedOfPadding(s, j, |s|);
  }

  /** Text that neither starts nor ends with a character <= ' ' is not trimmed. */
  lemma TrimUnpadded(s: string)
    requires |s| > 0 && s[0] > ' ' && s[|s| - 1] > ' '
    ensures Trim(s) == s
  {
    assert SkipPadding(s, 0) == 0;
    assert BackOverPadding(s, 0, |s|) == |s|;
  }

  // ---------------------------------------------------------------------------
  // Decimal numbers: String.format("%03d", n)
  // ---------------------------------------------------------------------------

  predicate IsDigit(c: char)
  {
    '0' <= c <= '9'
  }

  predicate AllDigits(s: string)
  {
    forall k :: 0 <= k < |s| ==> IsDigit(s[k])
  }

  function DigitChar(d: nat): (c: char)
    requires d < 10
    ensures IsDigit(c) && c as int - '0' as int == d
  {
    (48 + d) as char
  }

  /** The shortest decimal representation of `n`. */
  function Decimal(n: nat): (r: string)
    ensures |r| >= 1 && AllDigits(r)
    ensures n < 10 <==> |r| == 1
    ensures n < 100 ==> |r| <= 2
    ensures n < 1000 ==> |r| <= 3
    decreases n
  {
    if n < 10 then [DigitChar(n)] else Decimal(n / 10) + [DigitChar(n % 10)]
  }

  /** The number a string of decimal digits denotes (leading zeros allowed). */
  function DecimalValue(s: string): nat
    requires AllDigits(s)
    decreases |s|
  {
    if |s| == 0 then 0
    else DecimalValue(s[..|s| - 1]) * 10 + (s[|s| - 1] as int - '0' as int)
  }

  lemma {:induction false} DecimalRoundTrip(n: nat)
    ensures DecimalValue(Decimal(n)) == n
    decreases n
  {
    if n >= 10 {
      var d := Decimal(n / 10) + [DigitChar(n % 10)];
      assert d[..|d| - 1] == Decimal(n / 10);
      DecimalRoundTrip(n / 10);
    }
  }

  lemma {:induction false} LeadingZeros(k: nat, s: string)
    requires AllDigits(s)
    ensures AllDigits(seq(k, _ => '0') + s)
    ensures DecimalValue(seq(k, _ => '0') + s) == DecimalValue(s)
    decreases |s|, k
  {
    var z: string := seq(k, _ => '0');
    if |s| == 0 {
      assert z + s == z;
      if k > 0 {
        assert z[..k - 1] == seq(k - 1, _ => '0');
        LeadingZeros(k - 1, "");
        assert seq(k - 1, _ => '0') + "" == seq(k - 1, _ => '0');
      }
    } else {
      assert (z + s)[..|z + s| - 1] == z + s[..|s| - 1];
      LeadingZeros(k, s[..|s| - 1]);
    }
  }

  /** `String.format("%03d", n)`: `n` in decimal, left-padded with zeros to 3 digits. */
  function Format03d(n: nat): string
  {
    var d := Decimal(n);
    if |d| >= 3 then d else seq(3 - |d|, _ => '0') + d
  }

  /** The padded form is at least three digits (exactly three below 1000) and spells `n`. */
  lemma Format03dSpells(n: nat)
    ensures var r := Format03d(n);
            && AllDigits(r) && |r| >= 3
            && (n < 1000 ==> |r| == 3)
            && DecimalValue(r) == n
  {
    var d := Decimal(n);
    DecimalRoundTrip(n);
    if |d| < 3 {
      LeadingZeros(3 - |d|, d);
    }
  }

  /** Different numbers get different padded forms. */
  lemma Format03dInjective(m: nat, n: nat)
    requires m != n
    ensures Format03d(m) != Format03d(n)
  {
    Format03dSpells(m);
    Format03dSpells(n);
  }
}
