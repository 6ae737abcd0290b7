/** The handful of Go `strings` functions the retrieval pipeline relies on,
    over `seq<char>`.  Whitespace is Go's `unicode.IsSpace` restricted to
    Latin-1, case folding is ASCII only, and a string's length `|s|` is its
    number of characters; `ByteLen` gives Go's `len`, the number of bytes of
    the UTF-8 encoding, where the pipeline compares it with a constant. */
module GoStrings {

  /** Go's `unicode.IsSpace` on the Latin-1 range. */
  predicate IsSpace(c: char) {
    c == ' ' || c == '\t' || c == '\n' || c == '\r' ||
    c == '\U{000B}' || c == '\U{000C}' || c == '\U{0085}' || c == '\U{00A0}'
  }

  predicate NoSpace(s: string) {
    forall i :: 0 <= i < |s| ==> !IsSpace(s[i])
  }

  /** A string with no whitespace at either end, a fixed point of TrimSpace. */
  predicate Trimmed(s: string) {
    s == [] || (!IsSpace(s[0]) && !IsSpace(s[|s| - 1]))
  }

  predicate HasPrefix(s: string, prefix: string) {
    |prefix| <= |s| && s[..|prefix|] == prefix
  }

  /** `sub` occurs somewhere in `s`. */
  ghost predicate Contains(s: string, sub: string) {
    exists i :: OccursAt(s, sub, i)
  }

  /** `sub` occurs in `s` starting at index `i`. */
  predicate OccursAt(s: string, sub: string, i: int) {
    0 <= i <= |s| - |sub| && s[i..i + |sub|] == sub
  }

  /** The number of bytes UTF-8 spends on `c`. */
  function Utf8Width(c: char): (n: nat)
    ensures 1 <= n <= 4
    ensures n == 1 <==> c as int < 0x80
  {
    if c as int < 0x80 then 1
    else if c as int < 0x800 then 2
    else if c as int < 0x1_0000 then 3
    else 4
  }

  /** Go's `len` of a string: the length of its UTF-8 encoding. */
  function ByteLen(s: string): (n: nat)
    ensures |s| <= n <= 4 * |s|
    decreases |s|
  {
    if s == [] then 0 else Utf8Width(s[0]) + ByteLen(s[1..])
  }

  /** On ASCII text `len` counts characters. */
  lemma {:induction false} ByteLenAscii(s: string)
    requires forall i :: 0 <= i < |s| ==> s[i] as int < 0x80
    ensures ByteLen(s) == |s|
    decreases |s|
  {
    if s != [] {
      ByteLenAscii(s[1..]);
    }
  }

  function LowerChar(c: char): char {
    if 'A' <= c <= 'Z' then (c as int + 32) as char else c
  }

  /** strings.ToLower, ASCII letters only. */
  function ToLower(s: string): (r: string)
    ensures |r| == |s|
  {
    seq(|s|, i requires 0 <= i < |s| => LowerChar(s[i]))
  }

  lemma ToLowerIdempotent(s: string)
    ensures ToLower(ToLower(s)) == ToLower(s)
  {
  }

  /** strings.TrimLeftFunc(s, unicode.IsSpace): drops the longest all-space prefix. */
  function TrimLeft(s: string): (r: string)
    ensures |r| <= |s|
    ensures r != [] ==> !IsSpace(r[0])
    decreases |s|
  {
    if s != [] && IsSpace(s[0]) then TrimLeft(s[1..]) else s
  }

  /** What TrimLeft keeps is a suffix of its argument. */
  lemma {:induction false} TrimLeftIsSuffix(s: string)
    ensures TrimLeft(s) == s[|s| - |TrimLeft(s)|..]
    decreases |s|
  {
    if s != [] && IsSpace(s[0]) {
      TrimLeftIsSuffix(s[1..]);
      assert s[1..][|s| - 1 - |TrimLeft(s)|..] == s[|s| - |TrimLeft(s)|..];
    }
  }

  /** What TrimLeft drops is whitespace. */
  lemma {:induction false} TrimLeftDropsSpace(s: string)
    ensures forall i :: 0 <= i < |s| - |TrimLeft(s)| ==> IsSpace(s[i])
    decreases |s|
  {
    if s != [] && IsSpace(s[0]) {
      TrimLeftDropsSpace(s[1..]);
      forall i | 0 < i < |s| - |TrimLeft(s)| ensures IsSpace(s[i]) {
        assert s[i] == s[1..][i - 1];
      }
    }
  }

  /** strings.TrimRightFunc(s, unicode.IsSpace): drops the longest all-space suffix. */
  function TrimRight(s: string): (r: string)
    ensures |r| <= |s| && r == s[..|r|]
    ensures r != [] ==> !IsSpace(r[|r| - 1])
    decreases |s|
  {
    if s != [] && IsSpace(s[|s| - 1]) then TrimRight(s[..|s| - 1]) else s
  }

  /** What TrimRight drops is whitespace. */
  lemma {:induction false} TrimRightDropsSpace(s: string)
    ensures forall i :: |TrimRight(s)| <= i < |s| ==> IsSpace(s[i])
    decreases |s|
  {
    if s != [] && IsSpace(s[|s| - 1]) {
      var t := s[..|s| - 1];
      TrimRightDropsSpace(t);
      forall i | |TrimRight(s)| <= i < |s| - 1 ensures IsSpace(s[i]) {
        assert s[i] == t[i];
      }
    }
  }

  /** strings.TrimSpace. */
  function TrimSpace(s: string): (r: string)
    ensures |r| <= |s|
    ensures Trimmed(r)
  {
    TrimRight(TrimLeft(s))
  }

  /** TrimSpace removes exactly the whitespace at the two ends: what is left
      is the run s[i..i+|r|] and everything outside it is whitespace. */
  lemma TrimSpaceIsInnerRun(s: string)
    ensures var r := TrimSpace(s); var i := |s| - |TrimLeft(s)|;
      0 <= i <= i + |r| <= |s| && r == s[i..i + |r|] &&
      (forall k :: 0 <= k < i ==> IsSpace(s[k])) &&
      (forall k :: i + |r| <= k < |s| ==> IsSpace(s[k]))
  {
    var t := TrimLeft(s);
    var r := TrimRight(t);
    var i := |s| - |t|;
    TrimLeftIsSuffix(s);
    TrimLeftDropsSpace(s);
    TrimRightDropsSpace(t);
    assert t == s[i..];
    assert r == t[..|r|];
    forall k | i + |r| <= k < |s| ensures IsSpace(s[k]) {
      assert s[k] == t[k - i];
      assert |r| <= k - i < |t|;
      assert IsSpace(t[k - i]);
    }
  }

  lemma TrimSpaceOfTrimmed(s: string)
    requires Trimmed(s)
    ensures TrimSpace(s) == s
  {
  }

  lemma TrimSpaceIdempotent(s: string)
    ensures TrimSpace(TrimSpace(s)) == TrimSpace(s)
  {
    TrimSpaceOfTrimmed(TrimSpace(s));
  }

  /** A trimmed string followed by one whitespace character trims back to itself. */
  lemma TrimSpaceDropsTrailingSpace(s: string, c: char)
    requires Trimmed(s) && IsSpace(c)
    ensures TrimSpace(s + [c]) == s
  {
    var t := s + [c];
    if s == [] {
      assert t[1..] == [];
      assert TrimLeft(t) == TrimLeft(t[1..]) == [];
      assert TrimRight([]) == [];
    } else {
      assert t[0] == s[0] && t[|t| - 1] == c;
      assert TrimLeft(t) == t;
      assert t[..|t| - 1] == s;
      assert TrimRight(s) == s;
      assert TrimRight(t) == TrimRight(s);
    }
  }

  /** Trimming a string that ends in whitespace makes it strictly shorter. */
  lemma TrimSpaceShortens(s: string)
    requires s != [] && IsSpace(s[|s| - 1])
    ensures |TrimSpace(s)| < |s|
  {
    var t := TrimLeft(s);
    TrimLeftIsSuffix(s);
    if t != [] {
      assert t[|t| - 1] == s[|s| - 1];
    }
  }

  /** strings.Split(s, string(sep)) for a one-character separator. */
  function Split(s: string, sep: char): (r: seq<string>)
    ensures |r| >= 1
    ensures forall i :: 0 <= i < |r| ==> sep !in r[i]
    decreases |s|
  {
    if s == [] then [[]]
    else
      var rest := Split(s[1..], sep);
      if s[0] == sep then [[]] + rest else [[s[0]] + rest[0]] + rest[1..]
  }

  /** strings.Join. */
  function Join(parts: seq<string>, sep: string): (r: string)
    ensures |parts| == 1 ==> r == parts[0]
    decreases |parts|
  {
    if |parts| == 0 then []
    else if |parts| == 1 then parts[0]
    else parts[0] + sep + Join(parts[1..], sep)
  }

  /** Splitting and re-joining with the same separator restores the text. */
  lemma {:induction false} JoinSplit(s: string, sep: char)
    ensures Join(Split(s, sep), [sep]) == s
    decreases |s|
  {
    if s != [] {
      var rest := Split(s[1..], sep);
      JoinSplit(s[1..], sep);
      if s[0] == sep {
        assert Split(s, sep) == [[]] + rest;
        assert ([[]] + rest)[1..] == rest;
      } else {
        var parts := [[s[0]] + rest[0]] + rest[1..];
        assert Split(s, sep) == parts;
        if |rest| > 1 {
          assert parts[1..] == rest[1..];
          assert Join(rest, [sep]) == rest[0] + [sep] + Join(rest[1..], [sep]);
        }
      }
    }
  }

  lemma {:induction false} SplitNoSeparator(s: string, sep: char)
    requires sep !in s
    ensures Split(s, sep) == [s]
    decreases |s|
  {
    if s != [] {
      SplitNoSeparator(s[1..], sep);
      assert [s[0]] + s[1..] == s;
    }
  }

  lemma {:induction false} SplitAtSeparator(p: string, sep: char, t: string)
    requires sep !in p
    ensures Split(p + [sep] + t, sep) == [p] + Split(t, sep)
    decreases |p|
  {
    var s := p + [sep] + t;
    if p == [] {
      assert s[1..] == t;
    } else {
      assert s[1..] == p[1..] + [sep] + t;
      SplitAtSeparator(p[1..], sep, t);
      assert [p[0]] + p[1..] == p;
    }
  }

  /** Joining separator-free parts and splitting again gives the parts back. */
  lemma {:induction false} SplitJoin(parts: seq<string>, sep: char)
    requires |parts| >= 1
    requires forall i :: 0 <= i < |parts| ==> sep !in parts[i]
    ensures Split(Join(parts, [sep]), sep) == parts
    decreases |parts|
  {
    if |parts| == 1 {
      SplitNoSeparator(parts[0], sep);
    } else {
      SplitJoin(parts[1..], sep);
      SplitAtSeparator(parts[0], sep, Join(parts[1..], [sep]));
      assert [parts[0]] + parts[1..] == parts;
    }
  }

  /** Length of the leading run of non-space characters. */
  function WordEnd(s: string): (k: nat)
    ensures k <= |s|
    ensures k < |s| ==> IsSpace(s[k])
    decreases |s|
  {
    if s == [] || IsSpace(s[0]) then 0 else 1 + WordEnd(s[1..])
  }

  /** The word WordEnd delimits holds no whitespace. */
  lemma {:induction false} WordEndNoSpace(s: string)
    ensures NoSpace(s[..WordEnd(s)])
    decreases |s|
  {
    if s != [] && !IsSpace(s[0]) {
      var k := WordEnd(s);
      WordEndNoSpace(s[1..]);
      forall i | 0 < i < k ensures !IsSpace(s[..k][i]) {
        assert s[..k][i] == s[1..][..k - 1][i - 1];
      }
    }
  }

  /** strings.Fields: the maximal runs of non-space characters. */
  function Fields(s: string): (r: seq<string>)
    ensures |r| <= |s|
    decreases |s|
  {
    if s == [] then []
    else if IsSpace(s[0]) then Fields(s[1..])
    else
      var k := WordEnd(s);
      [s[..k]] + Fields(s[k..])
  }

  /** Every field is a non-empty run of non-space characters, and a string
      that starts with a non-space character starts with its first field. */
  lemma {:induction false} FieldsAreWords(s: string)
    ensures var r := Fields(s);
      (forall i :: 0 <= i < |r| ==> r[i] != [] && NoSpace(r[i])) &&
      (s != [] && !IsSpace(s[0]) ==> r != [] && HasPrefix(s, r[0]))
    decreases |s|
  {
    if s == [] {
    } else if IsSpace(s[0]) {
      FieldsAreWords(s[1..]);
      assert Fields(s) == Fields(s[1..]);
    } else {
      var k := WordEnd(s);
      WordEndNoSpace(s);
      FieldsAreWords(s[k..]);
      var r := Fields(s);
      assert r == [s[..k]] + Fields(s[k..]);
      forall i | 0 <= i < |r| ensures r[i] != [] && NoSpace(r[i]) {
        if i > 0 {
          assert r[i] == Fields(s[k..])[i - 1];
        }
      }
    }
  }

  lemma {:induction false} WordEndOfWord(w: string, t: string)
    requires NoSpace(w)
    requires t == [] || IsSpace(t[0])
    ensures WordEnd(w + t) == |w|
    decreases |w|
  {
    if w != [] {
      assert (w + t)[1..] == w[1..] + t;
      WordEndOfWord(w[1..], t);
    }
  }

  /** Fields undoes a join of space-free words with single blanks. */
  lemma {:induction false} FieldsJoin(words: seq<string>)
    requires forall i :: 0 <= i < |words| ==> words[i] != [] && NoSpace(words[i])
    ensures Fields(Join(words, " ")) == words
    decreases |words|
  {
    if |words| == 1 {
      var w := words[0];
      WordEndOfWord(w, []);
      assert w + [] == w;
      assert w[|w|..] == [];
    } else if |words| > 1 {
      var w := words[0];
      var t := " " + Join(words[1..], " ");
      var s := w + t;
      assert Join(words, " ") == s;
      WordEndOfWord(w, t);
      assert s[..|w|] == w;
      assert s[|w|..] == t;
      assert t[1..] == Join(words[1..], " ");
      FieldsJoin(words[1..]);
      assert [w] + words[1..] == words;
    }
  }

  /** strings.Count for a non-empty pattern: non-overlapping occurrences,
      scanning left to right and resuming after each match. */
  function CountFrom(s: string, sub: string): (n: nat)
    requires sub != []
    ensures n <= |s|
    decreases |s|
  {
    if |s| < |sub| then 0
    else if s[..|sub|] == sub then 1 + CountFrom(s[|sub|..], sub)
    else CountFrom(s[1..], sub)
  }

  /** strings.Count: an empty pattern counts |s| + 1 positions. */
  function Count(s: string, sub: string): (n: nat)
    ensures n <= |s| + 1
    ensures sub != [] ==> n <= |s|
  {
    if sub == [] then |s| + 1 else CountFrom(s, sub)
  }

  /** The occurrences counted do not overlap: together they fit in `s`. */
  lemma {:induction false} CountFromBound(s: string, sub: string)
    requires sub != []
    ensures CountFrom(s, sub) * |sub| <= |s|
    decreases |s|
  {
    if |s| < |sub| {
    } else if s[..|sub|] == sub {
      CountFromBound(s[|sub|..], sub);
      MulSucc(CountFrom(s[|sub|..], sub), |sub|);
    } else {
      CountFromBound(s[1..], sub);
    }
  }

  lemma MulSucc(c: nat, m: nat)
    ensures (c + 1) * m == c * m + m
  {
  }

  lemma CountBound(s: string, sub: string)
    ensures sub != [] ==> Count(s, sub) * |sub| <= |s|
    ensures sub == [] ==> Count(s, sub) == |s| + 1
  {
    if sub != [] {
      CountFromBound(s, sub);
    }
  }

  /** A non-empty pattern is counted at least once exactly when it occurs. */
  lemma {:induction false} CountPositiveIffContains(s: string, sub: string)
    requires sub != []
    ensures Count(s, sub) > 0 <==> Contains(s, sub)
    decreases |s|
  {
    if |s| < |sub| {
      assert forall i :: !OccursAt(s, sub, i);
    } else if s[..|sub|] == sub {
      assert OccursAt(s, sub, 0);
    } else {
      CountPositiveIffContains(s[1..], sub);
      if Contains(s[1..], sub) {
        var i :| OccursAt(s[1..], sub, i);
        assert s[1..][i..i + |sub|] == s[i + 1..i + 1 + |sub|];
        assert OccursAt(s, sub, i + 1);
      }
      if Contains(s, sub) {
        var i :| OccursAt(s, sub, i);
        assert i != 0;
        assert s[1..][i - 1..i - 1 + |sub|] == s[i..i + |sub|];
        assert OccursAt(s[1..], sub, i - 1);
      }
    }
  }
}
