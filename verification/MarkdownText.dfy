/** The markdown editor's text operations: what each inserts around the selection and where the
    cursor ends up. Text is a sequence of the units the browser indexes by. */
module MarkdownText {
  import opened Decimals

  datatype TextArea = TextArea(value: string, selectionStart: nat, selectionEnd: nat) {
    predicate Valid() {
      selectionStart <= selectionEnd <= |value|
    }
  }

  datatype ValueUpdate = ValueUpdate(value: string, selectionStart: nat, selectionEnd: nat)

  /** mdeREWord. */
  predicate IsWord(c: char) {
    'a' <= c <= 'z' || 'A' <= c <= 'Z' || '0' <= c <= '9' || c == '-' || c == '\''
  }

  /** Digits, capitals, small letters, the apostrophe and the dash, by code. */
  lemma WordCharacters(c: char)
    ensures var code := c as int;
            IsWord(c) <==> 48 <= code <= 57 || 65 <= code <= 90 || 97 <= code <= 122 || code == 39 || code == 45
  {
  }

  /** lo..hi is the longest run of word characters around a position. */
  ghost predicate WordAround(text: string, pos: nat, lo: nat, hi: nat) {
    && lo <= pos <= hi <= |text|
    && (forall i :: lo <= i < hi ==> IsWord(text[i]))
    && (lo > 0 ==> !IsWord(text[lo - 1]))
    && (hi < |text| ==> !IsWord(text[hi]))
  }

  /** The part of the text an insertion wraps: the selection, or the word under the cursor. */
  ghost predicate Wrapped(ta: TextArea, lo: nat, hi: nat) {
    if ta.selectionStart == ta.selectionEnd then WordAround(ta.value, ta.selectionEnd, lo, hi)
    else lo == ta.selectionStart && hi == ta.selectionEnd
  }

  /** That part is determined by the text and the selection. */
  lemma WrappedIsUnique(ta: TextArea, lo: nat, hi: nat, lo': nat, hi': nat)
    requires ta.Valid() && Wrapped(ta, lo, hi) && Wrapped(ta, lo', hi')
    ensures lo == lo' && hi == hi'
  {
  }

  method FindWrapped(ta: TextArea) returns (lo: nat, hi: nat)
    requires ta.Valid()
    ensures lo <= hi <= |ta.value| && Wrapped(ta, lo, hi)
  {
    lo, hi := ta.selectionStart, ta.selectionEnd;
    if lo == hi {
      while lo > 0 && IsWord(ta.value[lo - 1])
        invariant lo <= ta.selectionEnd
        invariant forall i :: lo <= i < ta.selectionEnd ==> IsWord(ta.value[i])
      {
        lo := lo - 1;
      }
      while hi < |ta.value| && IsWord(ta.value[hi])
        invariant ta.selectionEnd <= hi <= |ta.value|
        invariant forall i :: lo <= i < hi ==> IsWord(ta.value[i])
      {
        hi := hi + 1;
      }
    }
  }

  /** Where the parts of a wrapped text are, and how to take the wrapping out again. */
  lemma WrappedParts(text: string, lo: nat, hi: nat, open: string, close: string, pos: nat)
    requires lo <= pos <= hi <= |text|
    ensures var value := text[..lo] + open + text[lo..hi] + close + text[hi..];
            var n := |open|;
            && |value| == |text| + n + |close|
            && value[..pos + n] == text[..lo] + open + text[lo..pos]
            && value[..lo] + value[lo + n..hi + n] + value[hi + n + |close|..] == text
            && value[hi + n..hi + n + |close|] == close
            && value[hi + n + |close|..] == text[hi..]
  {
    var value := text[..lo] + open + text[lo..hi] + close + text[hi..];
    var n := |open|;
    assert value[..lo] == text[..lo];
    assert value[lo + n..hi + n] == text[lo..hi];
    assert value[hi + n + |close|..] == text[hi..];
    assert value[hi + n..hi + n + |close|] == close;
    assert text[..lo] + text[lo..hi] + text[hi..] == text;
  }

  /** Bold, italic and inline code: the marker goes on both sides, the cursor stays behind the
      text it was behind, and taking both markers out gives the old text back. */
  method InsertWrap(ta: TextArea, chars: string) returns (u: ValueUpdate, ghost lo: nat, ghost hi: nat)
    requires ta.Valid()
    ensures lo <= ta.selectionEnd <= hi <= |ta.value| && Wrapped(ta, lo, hi)
    ensures u.value == ta.value[..lo] + chars + ta.value[lo..hi] + chars + ta.value[hi..]
    ensures u.selectionStart == u.selectionEnd <= |u.value|
    ensures u.value[..u.selectionEnd] == ta.value[..lo] + chars + ta.value[lo..ta.selectionEnd]
    ensures var n := |chars|;
            && |u.value| == |ta.value| + 2 * n
            && u.value[..lo] + u.value[lo + n..hi + n] + u.value[hi + 2 * n..] == ta.value
  {
    var start, end := FindWrapped(ta);
    lo, hi := start, end;
    var left := ta.value[..start];
    var mid := ta.value[start..end];
    var right := ta.value[end..];
    var cursorPos := ta.selectionEnd + |chars|;
    var value := left + chars + mid + chars + right;
    u := ValueUpdate(value, cursorPos, cursorPos);
    WrappedParts(ta.value, start, end, chars, chars, ta.selectionEnd);
  }

  /** text[lo..hi] has been made the label of a link with some URL, which is what the update
      selects; label and rest can be put together again. */
  ghost predicate Linked(text: string, lo: nat, hi: nat, url: string, u: ValueUpdate)
    requires lo <= hi <= |text|
  {
    && lo + 1 <= hi + 1 <= u.selectionStart <= u.selectionEnd < |u.value|
    && u.value[..u.selectionStart] == text[..lo] + "[" + text[lo..hi] + "]("
    && u.value[u.selectionStart..u.selectionEnd] == url
    && u.value[u.selectionEnd..] == ")" + text[hi..]
    && u.value[..lo] + u.value[lo + 1..hi + 1] + u.value[u.selectionEnd + 1..] == text
  }

  /** A link: with a selection the cursor lands between the parentheses, without one the
      placeholder is selected. */
  method InsertLink(ta: TextArea) returns (u: ValueUpdate, ghost lo: nat, ghost hi: nat)
    requires ta.Valid()
    ensures lo <= hi <= |ta.value| && Wrapped(ta, lo, hi)
    ensures u.selectionStart <= u.selectionEnd < |u.value|
    ensures u.value[u.selectionStart..u.selectionEnd] == if ta.selectionStart == ta.selectionEnd then "url" else ""
    ensures ta.selectionStart == ta.selectionEnd ==> Linked(ta.value, lo, hi, "url", u)
    ensures ta.selectionStart != ta.selectionEnd ==> Linked(ta.value, lo, hi, "", u)
  {
    var start, end := FindWrapped(ta);
    lo, hi := start, end;
    var left := ta.value[..start];
    var mid := ta.value[start..end];
    var right := ta.value[end..];
    var cursorPos := start + |mid| + 3;
    assert cursorPos == hi + 3;
    LinkLiterals();
    if ta.selectionStart != ta.selectionEnd {
      var close := "]()";
      u := ValueUpdate(left + "[" + mid + close + right, cursorPos, cursorPos);
      LinkParts(ta.value, lo, hi, "", close, u);
    } else {
      var close := "](url)";
      u := ValueUpdate(left + "[" + mid + close + right, cursorPos, cursorPos + 3);
      LinkParts(ta.value, lo, hi, "url", close, u);
    }
  }

  lemma LinkLiterals()
    ensures "](" + "" + ")" == "]()" && "](" + "url" + ")" == "](url)"
  {
  }

  lemma LinkParts(text: string, lo: nat, hi: nat, url: string, close: string, u: ValueUpdate)
    requires lo <= hi <= |text| && close == "](" + url + ")"
    requires u == ValueUpdate(text[..lo] + "[" + text[lo..hi] + close + text[hi..], hi + 3, hi + 3 + |url|)
    ensures Linked(text, lo, hi, url, u)
  {
    var left, mid, right := text[..lo], text[lo..hi], text[hi..];
    WrappedParts(text, lo, hi, "[", close, hi);
    Regrouped(left + "[" + mid, "](", url, ")", right);
    ThreeParts(left + "[" + mid + "](", url, ")" + right);
  }

  lemma Regrouped(a: string, open: string, url: string, end: string, b: string)
    ensures a + (open + url + end) + b == (a + open) + url + (end + b)
  {
  }

  lemma TwoParts(a: string, b: string)
    ensures (a + b)[..|a|] == a && (a + b)[|a|..] == b
  {
  }

  lemma ThreeParts(a: string, b: string, c: string)
    ensures var s := a + b + c;
            s[..|a|] == a && s[|a|..|a| + |b|] == b && s[|a| + |b|..] == c
  {
  }

  // ----- Line prefixes -----

  /** What is inserted after the k-th newline. */
  function Marker(chars: string, numbered: bool, k: nat): string {
    if numbered then Decimal(k) + "." + chars else chars
  }

  /** The block with a marker after each newline, k of which have gone before. */
  function Marked(block: string, chars: string, numbered: bool, k: nat): string {
    if block == "" then ""
    else if block[0] == '\n' then "\n" + Marker(chars, numbered, k + 1) + Marked(block[1..], chars, numbered, k + 1)
    else [block[0]] + Marked(block[1..], chars, numbered, k)
  }

  function Newlines(s: string): nat {
    if s == "" then 0 else (if s[0] == '\n' then 1 else 0) + Newlines(s[1..])
  }

  /** The lines of the block, the first as it is and each later one behind its marker, the i-th behind
      the number i in a numbered list. */
  ghost predicate LinesMarked(block: string, out: string, chars: string, numbered: bool) {
    && |Lines(out)| == |Lines(block)| && Lines(out)[0] == Lines(block)[0]
    && forall i :: 1 <= i < |Lines(block)| ==>
                     Lines(out)[i] == (if numbered then Decimal(i) + "." + chars + Lines(block)[i]
                                       else chars + Lines(block)[i])
  }

  /** mid.replaceAll(/\n/g, ...) with its counting callback. */
  method ReplaceNewlines(block: string, chars: string, numbered: bool)
    returns (out: string, count: nat, charsInserted: nat)
    ensures out == Marked(block, chars, numbered, 0)
    ensures '\n' !in chars ==> LinesMarked(block, out, chars, numbered)
    ensures count == Newlines(block) == |Lines(block)| - 1
    ensures charsInserted == |out| - |block|
  {
    out, count, charsInserted := "", 0, 0;
    assert block[0..] == block;
    for i := 0 to |block|
      invariant out + Marked(block[i..], chars, numbered, count) == Marked(block, chars, numbered, 0)
      invariant count + Newlines(block[i..]) == Newlines(block)
      invariant charsInserted == |out| - i
    {
      MarkedNext(out, block, i, chars, numbered, count);
      if block[i] == '\n' {
        count := count + 1;
        if numbered {
          var sc := Decimal(count) + ".";
          charsInserted := charsInserted + |sc| + |chars|;
          out := out + ("\n" + (sc + chars));
        } else {
          charsInserted := charsInserted + |chars|;
          out := out + ("\n" + chars);
        }
      } else {
        out := out + [block[i]];
      }
    }
    assert block[|block|..] == "";
    assert out + "" == out;
    if '\n' !in chars {
      RewrittenLines(block, chars, numbered, 0);
    }
  }

  lemma MarkedNext(out: string, block: string, i: nat, chars: string, numbered: bool, k: nat)
    requires i < |block|
    ensures Newlines(block[i..]) == (if block[i] == '\n' then 1 else 0) + Newlines(block[i + 1..])
    ensures out + Marked(block[i..], chars, numbered, k) ==
            if block[i] == '\n' then
              out + ("\n" + Marker(chars, numbered, k + 1)) + Marked(block[i + 1..], chars, numbered, k + 1)
            else out + [block[i]] + Marked(block[i + 1..], chars, numbered, k)
  {
    assert block[i..][1..] == block[i + 1..];
    if block[i] == '\n' {
      var a, b := "\n" + Marker(chars, numbered, k + 1), Marked(block[i + 1..], chars, numbered, k + 1);
      assert out + (a + b) == out + a + b;
    } else {
      var a, b := [block[i]], Marked(block[i + 1..], chars, numbered, k);
      assert out + (a + b) == out + a + b;
    }
  }

  /** The start of the block a selection is extended to: the newline at or before its first
      character, or the beginning of the text. */
  ghost predicate BlockStart(ta: TextArea, lo: nat) {
    && lo <= ta.selectionStart < |ta.value|
    && (lo > 0 ==> ta.value[lo] == '\n')
    && forall i :: lo < i <= ta.selectionStart ==> ta.value[i] != '\n'
  }

  /** The start of the line the cursor is on. */
  ghost predicate LineStart(ta: TextArea, lo: nat) {
    && lo <= ta.selectionStart <= |ta.value|
    && (lo > 0 ==> ta.value[lo - 1] == '\n')
    && forall i :: lo <= i < ta.selectionStart ==> ta.value[i] != '\n'
  }

  /** Headings, quotes and lists. With a selection, one marker after each newline of the extended
      block and the cursor at the end of the rewritten block; without, one marker at the start
      of the line and the cursor behind the text it was behind. */
  method InsertBeginningOfLine(ta: TextArea, chars: string, insertCount: bool)
    returns (u: ValueUpdate, ghost lo: nat)
    requires ta.Valid()
    ensures u.selectionStart == u.selectionEnd <= |u.value|
    ensures ta.selectionStart == ta.selectionEnd ==>
              && LineStart(ta, lo)
              && u.value == ta.value[..lo] + chars + ta.value[lo..]
              && u.value[..u.selectionEnd] == ta.value[..lo] + chars + ta.value[lo..ta.selectionEnd]
    ensures ta.selectionStart < ta.selectionEnd ==>
              && BlockStart(ta, lo)
              && u.value[..u.selectionEnd]
                 == ta.value[..lo] + Marked(ta.value[lo..ta.selectionEnd], chars, insertCount, 0)
              && u.value[u.selectionEnd..] == ta.value[ta.selectionEnd..]
              && u.value[..lo] == ta.value[..lo] && lo <= u.selectionEnd
              && ('\n' !in chars ==>
                    LinesMarked(ta.value[lo..ta.selectionEnd], u.value[lo..u.selectionEnd], chars, insertCount))
  {
    var start, end := ta.selectionStart, ta.selectionEnd;
    if start == end {
      while start > 0
        invariant 0 <= start <= ta.selectionStart
        invariant forall i :: start <= i < ta.selectionStart ==> ta.value[i] != '\n'
      {
        var c := ta.value[start - 1];
        if c == '\n' {
          break;
        }
        start := start - 1;
      }
      lo := start;
      var left, right := ta.value[..start], ta.value[start..];
      var cursorPos := ta.selectionEnd + |chars|;
      u := ValueUpdate(left + chars + right, cursorPos, cursorPos);
      var before, after := ta.value[start..end], ta.value[end..];
      assert right == before + after;
      assert left + chars + right == left + chars + before + after;
      TwoParts(left + chars + before, after);
    } else {
      while start > 0
        invariant 0 <= start <= ta.selectionStart
        invariant forall i :: start < i <= ta.selectionStart ==> ta.value[i] != '\n'
      {
        var c := ta.value[start];
        if c == '\n' {
          break;
        }
        start := start - 1;
      }
      lo := start;
      var left, mid, right := ta.value[..start], ta.value[start..end], ta.value[end..];
      var marked, count, charsInserted := ReplaceNewlines(mid, chars, insertCount);
      var cursorPos := ta.selectionEnd + charsInserted;
      u := ValueUpdate(left + marked + right, cursorPos, cursorPos);
      assert cursorPos == |left + marked|;
      TwoParts(left + marked, right);
      assert u.value[lo..u.selectionEnd] == marked;
    }
  }

  // ----- What marking a block means -----

  /** Dropping after the k-th newline as many characters as its marker has. */
  function Strip(text: string, chars: string, numbered: bool, k: nat): string
    decreases |text|
  {
    if text == "" then ""
    else if text[0] == '\n' then
      var n := |Marker(chars, numbered, k + 1)|;
      "\n" + (if n <= |text| - 1 then Strip(text[1 + n..], chars, numbered, k + 1) else "")
    else [text[0]] + Strip(text[1..], chars, numbered, k)
  }

  /** A strip driven by the counter recovers the block, whatever the digits of the counters. */
  lemma {:induction false} StripRecovers(block: string, chars: string, numbered: bool, k: nat)
    ensures Strip(Marked(block, chars, numbered, k), chars, numbered, k) == block
  {
    if block == "" {
    } else if block[0] == '\n' {
      StripRecovers(block[1..], chars, numbered, k + 1);
      var m := Marker(chars, numbered, k + 1);
      var rest := Marked(block[1..], chars, numbered, k + 1);
      var text := "\n" + m + rest;
      assert text[1 + |m|..] == rest;
      assert block == "\n" + block[1..];
    } else {
      StripRecovers(block[1..], chars, numbered, k);
      var text := Marked(block, chars, numbered, k);
      assert text[1..] == Marked(block[1..], chars, numbered, k);
      assert block == [block[0]] + block[1..];
    }
  }

  /** The lines of a text. */
  function Lines(s: string): (r: seq<string>)
    ensures |r| == Newlines(s) + 1
  {
    if s == "" then [""]
    else
      var rest := Lines(s[1..]);
      if s[0] == '\n' then [""] + rest else [[s[0]] + rest[0]] + rest[1..]
  }

  /** They are what newlines separate: put together again they give the text, and none holds one. */
  lemma {:induction false} LinesMean(s: string)
    ensures forall i :: 0 <= i < |Lines(s)| ==> '\n' !in Lines(s)[i]
    ensures Separated(Lines(s)) == s
  {
    if s != "" {
      var rest := Lines(s[1..]);
      LinesMean(s[1..]);
      if s[0] == '\n' {
        assert Lines(s) == [""] + rest && Lines(s)[1..] == rest;
        assert "" + "\n" + Separated(rest) == [s[0]] + s[1..];
      } else {
        assert Lines(s) == [[s[0]] + rest[0]] + rest[1..] && Lines(s)[1..] == rest[1..];
        assert s == [s[0]] + s[1..];
        if |rest| > 1 {
          assert [s[0]] + rest[0] + "\n" + Separated(rest[1..]) == [s[0]] + (rest[0] + "\n" + Separated(rest[1..]));
        }
      }
    }
  }

  function Separated(lines: seq<string>): string {
    if lines == [] then ""
    else if |lines| == 1 then lines[0]
    else lines[0] + "\n" + Separated(lines[1..])
  }

  /** Text without a newline goes in front of the first line. */
  lemma {:induction false} PrefixedLines(prefix: string, s: string)
    requires '\n' !in prefix
    ensures Lines(prefix + s) == [prefix + Lines(s)[0]] + Lines(s)[1..]
  {
    if prefix == "" {
      assert prefix + s == s && prefix + Lines(s)[0] == Lines(s)[0];
    } else {
      var p := prefix[1..];
      PrefixedLines(p, s);
      assert (prefix + s)[1..] == p + s;
      assert prefix[0] in prefix;
      assert [prefix[0]] + (p + Lines(s)[0]) == prefix + Lines(s)[0];
    }
  }

  /** The later lines stand behind their markers, the first of which is number k + 1. */
  ghost predicate Rewritten(lines: seq<string>, out: seq<string>, chars: string, numbered: bool, k: nat) {
    && |out| == |lines| > 0 && out[0] == lines[0]
    && forall i :: 1 <= i < |lines| ==>
                     out[i] == (if numbered then Decimal(k + i) + "." + chars + lines[i] else chars + lines[i])
  }

  lemma NumberedLine(chars: string, numbered: bool, count: nat, line: string)
    ensures Marker(chars, numbered, count) + line ==
            if numbered then Decimal(count) + "." + chars + line else chars + line
  {
  }

  lemma RewrittenNewline(lines: seq<string>, out: seq<string>, chars: string, numbered: bool, k: nat, out': seq<string>)
    requires Rewritten(lines, out, chars, numbered, k + 1)
    requires out' == ["", Marker(chars, numbered, k + 1) + out[0]] + out[1..]
    ensures Rewritten([""] + lines, out', chars, numbered, k)
  {
    var lines' := [""] + lines;
    NumberedLine(chars, numbered, k + 1, out[0]);
    forall i | 1 <= i < |lines'|
      ensures out'[i] == (if numbered then Decimal(k + i) + "." + chars + lines'[i] else chars + lines'[i])
    {
      assert lines'[i] == lines[i - 1];
      if i > 1 {
        assert out'[i] == out[i - 1];
      }
    }
  }

  lemma RewrittenCharacter(lines: seq<string>, out: seq<string>, chars: string, numbered: bool, k: nat, c: char)
    requires Rewritten(lines, out, chars, numbered, k)
    ensures Rewritten([[c] + lines[0]] + lines[1..], [[c] + out[0]] + out[1..], chars, numbered, k)
  {
  }

  lemma MarkedLine(chars: string, numbered: bool, count: nat, rest: string)
    requires '\n' !in chars
    ensures Lines("\n" + Marker(chars, numbered, count) + rest) ==
            ["", Marker(chars, numbered, count) + Lines(rest)[0]] + Lines(rest)[1..]
  {
    var m := Marker(chars, numbered, count);
    DecimalIsDigits(count);
    assert '\n' !in Decimal(count);
    assert '\n' !in m;
    PrefixedLines(m, rest);
    var text := "\n" + m + rest;
    assert text[0] == '\n' && text[1..] == m + rest;
  }

  lemma {:induction false} RewrittenLines(block: string, chars: string, numbered: bool, k: nat)
    requires '\n' !in chars
    ensures Rewritten(Lines(block), Lines(Marked(block, chars, numbered, k)), chars, numbered, k)
  {
    if block == "" {
    } else if block[0] == '\n' {
      var rest := Marked(block[1..], chars, numbered, k + 1);
      RewrittenLines(block[1..], chars, numbered, k + 1);
      MarkedLine(chars, numbered, k + 1, rest);
      RewrittenNewline(Lines(block[1..]), Lines(rest), chars, numbered, k, Lines(Marked(block, chars, numbered, k)));
    } else {
      var rest := Marked(block[1..], chars, numbered, k);
      RewrittenLines(block[1..], chars, numbered, k);
      assert Marked(block, chars, numbered, k)[1..] == rest;
      RewrittenCharacter(Lines(block[1..]), Lines(rest), chars, numbered, k, block[0]);
    }
  }

  /** Lines put together again, each but the first behind a newline and its numbered marker. */
  function JoinMarked(lines: seq<string>, chars: string, numbered: bool, k: nat): string
    requires |lines| > 0
  {
    if |lines| == 1 then lines[0]
    else lines[0] + "\n" + Marker(chars, numbered, k + 1) + JoinMarked(lines[1..], chars, numbered, k + 1)
  }

  /** Marking a block keeps its lines and puts the markers 1, 2, ..., k in front of all of them
      but the first, which has no newline before it inside the block. */
  lemma {:induction false} MarkedLineByLine(block: string, chars: string, numbered: bool, k: nat)
    ensures Marked(block, chars, numbered, k) == JoinMarked(Lines(block), chars, numbered, k)
  {
    if block == "" {
    } else {
      var rest := Lines(block[1..]);
      var k' := if block[0] == '\n' then k + 1 else k;
      MarkedLineByLine(block[1..], chars, numbered, k');
      if block[0] == '\n' {
        assert Lines(block)[1..] == rest;
        assert "" + "\n" == "\n";
      } else {
        JoinPrefixed(block[0], rest, chars, numbered, k);
      }
    }
  }

  /** A character in front of the first line is a character in front of the joined lines. */
  lemma JoinPrefixed(c: char, lines: seq<string>, chars: string, numbered: bool, k: nat)
    requires |lines| > 0
    ensures JoinMarked([[c] + lines[0]] + lines[1..], chars, numbered, k) == [c] + JoinMarked(lines, chars, numbered, k)
  {
    var prefixed := [[c] + lines[0]] + lines[1..];
    if |lines| > 1 {
      assert prefixed[1..] == lines[1..];
      var m, tail := Marker(chars, numbered, k + 1), JoinMarked(lines[1..], chars, numbered, k + 1);
      assert [c] + lines[0] + "\n" + m + tail == [c] + (lines[0] + "\n" + m + tail);
    }
  }

  /** How much a block grows: the markers' lengths, those of longer counters included. */
  function Growth(chars: string, numbered: bool, k: nat, n: nat): nat
    decreases n
  {
    if n == 0 then 0 else |Marker(chars, numbered, k + 1)| + Growth(chars, numbered, k + 1, n - 1)
  }

  lemma {:induction false} MarkedGrowth(block: string, chars: string, numbered: bool, k: nat)
    ensures |Marked(block, chars, numbered, k)| == |block| + Growth(chars, numbered, k, Newlines(block))
  {
    if block != "" {
      MarkedGrowth(block[1..], chars, numbered, if block[0] == '\n' then k + 1 else k);
    }
  }

  lemma {:induction false} NewlinesConcat(a: string, b: string)
    ensures Newlines(a + b) == Newlines(a) + Newlines(b)
  {
    if a == "" {
      assert a + b == b;
    } else {
      assert (a + b)[1..] == a[1..] + b;
      NewlinesConcat(a[1..], b);
    }
  }

  lemma {:induction false} NoNewline(s: string)
    requires forall i :: 0 <= i < |s| ==> s[i] != '\n'
    ensures Newlines(s) == 0
  {
    if s != "" {
      assert forall i :: 0 <= i < |s| - 1 ==> s[1..][i] == s[i + 1];
      NoNewline(s[1..]);
    }
  }

  /** A selection touches one line more than it has newlines. Each of them gets a marker if and
      only if the selection does not start at a line end and a line ends before it; otherwise
      the first one, the first line of the text in the second case, goes without. */
  lemma EverySelectedLineMarkedIff(ta: TextArea, lo: nat)
    requires ta.Valid() && ta.selectionStart < ta.selectionEnd && BlockStart(ta, lo)
    ensures var markers := Newlines(ta.value[lo..ta.selectionEnd]);
            var selected := Newlines(ta.value[ta.selectionStart..ta.selectionEnd]);
            && (markers == selected + 1 <==>
                  ta.value[ta.selectionStart] != '\n' && exists i :: 0 <= i < ta.selectionStart && ta.value[i] == '\n')
            && (markers == selected + 1 || markers == selected)
  {
    var ahead, selection := ta.value[lo..ta.selectionStart], ta.value[ta.selectionStart..ta.selectionEnd];
    assert ta.value[lo..ta.selectionEnd] == ahead + selection;
    NewlinesConcat(ahead, selection);
    if lo < ta.selectionStart {
      var later := ahead[1..];
      forall i | 0 <= i < |later|
        ensures later[i] != '\n'
      {
        assert later[i] == ta.value[lo + 1 + i];
      }
      NoNewline(later);
    }
    if i :| 0 <= i < ta.selectionStart && ta.value[i] == '\n' {
      assert i <= lo;
    }
  }

  /** The second case at its smallest: selecting the first line of a text marks nothing. */
  lemma FirstLineGoesWithout(chars: string, numbered: bool)
    ensures var ta := TextArea("ab\ncd", 0, 2);
            && BlockStart(ta, 0) && Newlines(ta.value[0..2]) == 0
            && Marked(ta.value[0..2], chars, numbered, 0) == ta.value[0..2]
  {
    var block := "ab\ncd"[0..2];
    assert block == "ab" && block[1..] == "b" && "b"[1..] == "";
    assert Marked("b", chars, numbered, 0) == "b";
  }
}
