/** Text positions, character runs, decimal numerals, splitting and joining. */
module Text {
  /** `s` stands in `text` at position `pos`. */
  ghost predicate At(text: string, pos: nat, s: string) {
    pos + |s| <= |text| && text[pos..pos + |s|] == s
  }

  lemma AtSplit(text: string, pos: nat, a: string, b: string)
    ensures At(text, pos, a + b) <==> At(text, pos, a) && At(text, pos + |a|, b)
    ensures At(text, pos, a + b) ==> pos + |a| + |b| <= |text|
  {
    if At(text, pos, a + b) {
      assert text[pos..pos + |a|] == (a + b)[..|a|] == a;
      assert text[pos + |a|..pos + |a| + |b|] == (a + b)[|a|..] == b;
    }
    if At(text, pos, a) && At(text, pos + |a|, b) {
      assert text[pos..pos + |a + b|] == text[pos..pos + |a|] + text[pos + |a|..pos + |a| + |b|];
    }
  }

  lemma Assoc<T>(a: seq<T>, b: seq<T>, c: seq<T>)
    ensures a + b + c == a + (b + c)
  {
  }

  lemma AtSlice(text: string, pos: nat, s: string)
    requires At(text, pos, s)
    ensures pos + |s| <= |text| && text[pos..pos + |s|] == s
  {
  }

  lemma AtIndex(text: string, pos: nat, s: string, i: nat)
    requires At(text, pos, s) && i < |s|
    ensures pos + |s| <= |text| && text[pos + i] == s[i]
  {
    assert text[pos..pos + |s|][i] == s[i];
  }

  // ---- Character classes (ASCII) -------------------------------------------------

  predicate IsDigit(c: char) { '0' <= c <= '9' }

  predicate IsUpper(c: char) { 'A' <= c <= 'Z' }

  predicate IsAlpha(c: char) { 'a' <= c <= 'z' || 'A' <= c <= 'Z' }

  predicate IsAlnum(c: char) { IsAlpha(c) || IsDigit(c) }

  /** The characters of a ref id. */
  predicate IsRefChar(c: char) { IsAlnum(c) || c == '-' || c == '_' || c == ':' || c == '.' || c == '~' }

  /** The ASCII characters that `str.strip` takes off. */
  predicate IsSpace(c: char) { c == ' ' || '\t' <= c <= '\r' || '\U{001C}' <= c <= '\U{001F}' }

  function Max(a: nat, b: nat): nat { if a > b then a else b }

  // ---- Runs of characters ----------------------------------------------------------

  ghost predicate AllOf(s: string, p: char -> bool) {
    forall i :: 0 <= i < |s| ==> p(s[i])
  }

  /** First position from `pos` on whose character is not in the class `p`. */
  function SkipWhile(text: string, pos: nat, p: char -> bool): (end: nat)
    requires pos <= |text|
    ensures pos <= end <= |text|
    ensures AllOf(text[pos..end], p)
    ensures end < |text| ==> !p(text[end])
    decreases |text| - pos
  {
    if pos < |text| && p(text[pos]) then
      var end := SkipWhile(text, pos + 1, p);
      assert text[pos..end] == [text[pos]] + text[pos + 1..end];
      end
    else pos
  }

  /** A run ends where its class ends. */
  lemma SkipRun(text: string, pos: nat, s: string, p: char -> bool)
    requires At(text, pos, s) && AllOf(s, p)
    requires pos + |s| < |text| ==> !p(text[pos + |s|])
    ensures pos + |s| <= |text|
    ensures SkipWhile(text, pos, p) == pos + |s|
  {
    hide At;
    AtSlice(text, pos, s);
    forall i | pos <= i < pos + |s|
      ensures p(text[i])
    {
      AtIndex(text, pos, s, i - pos);
    }
  }

  // ---- Decimal numerals -------------------------------------------------------------

  function DigitChar(d: nat): char
    requires d < 10
  {
    '0' + d as char
  }

  function DigitValue(c: char): nat
    requires IsDigit(c)
  {
    (c - '0') as nat
  }

  /** `str(n)` for a natural number. */
  function NatText(n: nat): (s: string)
    ensures |s| > 0 && AllOf(s, IsDigit)
  {
    if n < 10 then [DigitChar(n)] else NatText(n / 10) + [DigitChar(n % 10)]
  }

  /** `str(n)` */
  function IntText(n: int): (s: string)
    ensures |s| > 0
  {
    if n < 0 then "-" + NatText(-n) else NatText(n)
  }

  function NatValue(s: string): nat
    requires AllOf(s, IsDigit)
  {
    if s == [] then 0
    else
      var front, last := s[..|s| - 1], s[|s| - 1];
      NatValue(front) * 10 + DigitValue(last)
  }

  lemma {:induction false} NatTextReadsBack(n: nat)
    ensures NatValue(NatText(n)) == n
  {
    if n >= 10 {
      NatTextReadsBack(n / 10);
      var s := NatText(n);
      assert s[..|s| - 1] == NatText(n / 10);
    }
  }

  // ---- Splitting and joining ---------------------------------------------------------

  /** `text.split(sep)` for a one-character separator. */
  function Split(text: string, sep: char): (parts: seq<string>)
    ensures |parts| > 0
    ensures forall i :: 0 <= i < |parts| ==> sep !in parts[i]
  {
    if text == "" then [""]
    else
      var rest := Split(text[1..], sep);
      if text[0] == sep then [""] + rest
      else [[text[0]] + rest[0]] + rest[1..]
  }

  /** `sep.join(parts)` */
  function Join(parts: seq<string>, sep: string): string {
    if parts == [] then ""
    else if |parts| == 1 then parts[0]
    else parts[0] + sep + Join(parts[1..], sep)
  }

  lemma {:induction false} SplitPrefix(part: string, rest: string, sep: char)
    requires sep !in part
    ensures Split(part + [sep] + rest, sep) == [part] + Split(rest, sep)
    ensures Split(part, sep) == [part]
  {
    if part == "" {
      assert (part + [sep] + rest)[1..] == rest;
    } else {
      SplitPrefix(part[1..], rest, sep);
      assert (part + [sep] + rest)[1..] == part[1..] + [sep] + rest;
      assert [part[0]] + part[1..] == part;
    }
  }

  /** Splitting undoes joining when no part holds the separator. */
  lemma {:induction false} SplitJoin(parts: seq<string>, sep: char)
    requires |parts| > 0 && forall i :: 0 <= i < |parts| ==> sep !in parts[i]
    ensures Split(Join(parts, [sep]), sep) == parts
  {
    SplitPrefix(parts[0], "", sep);
    if |parts| > 1 {
      SplitJoin(parts[1..], sep);
      SplitPrefix(parts[0], Join(parts[1..], [sep]), sep);
    }
  }

  /** There is more than one part exactly when the separator occurs. */
  lemma {:induction false} SplitCount(text: string, sep: char)
    ensures |Split(text, sep)| > 1 <==> sep in text
  {
    if text != "" {
      SplitCount(text[1..], sep);
      assert text == [text[0]] + text[1..];
    }
  }

  /** Joining undoes splitting. */
  lemma {:induction false} JoinSplit(text: string, sep: char)
    ensures Join(Split(text, sep), [sep]) == text
  {
    if text != "" {
      JoinSplit(text[1..], sep);
      var rest := Split(text[1..], sep);
      if text[0] == sep {
        assert ([""] + rest)[1..] == rest;
      } else {
        var parts := [[text[0]] + rest[0]] + rest[1..];
        assert parts[1..] == rest[1..];
        if |rest| > 1 {
          assert [text[0]] + rest[0] + [sep] + Join(rest[1..], [sep])
              == [text[0]] + (rest[0] + [sep] + Join(rest[1..], [sep]));
        }
      }
    }
  }
}
