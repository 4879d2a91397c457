/** What Slugify makes of a title, read off the title itself: runs of letters and digits are kept in
    lower case, separators between them become one dash each, everything else goes, and what is
    longer than 100 characters is cut. */
module SlugTitles {
  import opened Slug

  /** A letter or digit of a slug. */
  predicate IsWordChar(c: char) {
    'a' <= c <= 'z' || '0' <= c <= '9'
  }

  predicate IsSeparator(c: char) {
    c == ' ' || c == '_' || c == '-'
  }

  /** The title has something to keep. */
  ghost predicate HasWord(lower: Lower, title: string) {
    exists i :: 0 <= i < |title| && IsWordChar(lower(title[i]))
  }

  // ----- The pipeline up to the dashes -----

  /** Lower case, separators as dashes, the rest deleted. */
  function Kept(lower: Lower, title: string): string {
    KeepSlugChars(ReplaceAll(ReplaceAll(Mapped(title, lower), ' ', '-'), '_', '-'))
  }

  /** One dash for each run of them, none at the ends. */
  function Dashed(kept: string): string {
    TrimRight(TrimLeft(CollapseDashes(kept)))
  }

  function Cut(dashed: string): string {
    var s := Shorten(dashed);
    if s == "" then "untitled" else s
  }

  lemma SlugifySteps(lower: Lower, title: string)
    ensures Slugify(lower, title) == Cut(Dashed(Kept(lower, title)))
  {
  }

  lemma {:induction false} MappedConcat(a: string, b: string, f: char -> char)
    ensures Mapped(a + b, f) == Mapped(a, f) + Mapped(b, f)
  {
    if a == "" {
      assert a + b == b;
    } else {
      assert (a + b)[1..] == a[1..] + b;
      MappedConcat(a[1..], b, f);
    }
  }

  lemma {:induction false} KeepConcat(a: string, b: string)
    ensures KeepSlugChars(a + b) == KeepSlugChars(a) + KeepSlugChars(b)
  {
    if a == "" {
      assert a + b == b;
    } else {
      assert (a + b)[1..] == a[1..] + b;
      KeepConcat(a[1..], b);
    }
  }

  lemma KeptConcat(lower: Lower, a: string, b: string)
    ensures Kept(lower, a + b) == Kept(lower, a) + Kept(lower, b)
  {
    var space, under := (c: char) => if c == ' ' then '-' else c, (c: char) => if c == '_' then '-' else c;
    MappedConcat(a, b, lower);
    MappedConcat(Mapped(a, lower), Mapped(b, lower), space);
    MappedConcat(Mapped(Mapped(a, lower), space), Mapped(Mapped(b, lower), space), under);
    KeepConcat(Mapped(Mapped(Mapped(a, lower), space), under), Mapped(Mapped(Mapped(b, lower), space), under));
  }

  lemma MappedOne(c: char, f: char -> char)
    ensures Mapped([c], f) == [f(c)]
  {
    assert [c][1..] == "";
  }

  lemma ReplacedOne(c: char, from: char, to: char)
    ensures ReplaceAll([c], from, to) == [if c == from then to else c]
  {
    MappedOne(c, x => if x == from then to else x);
    assert [c][1..] == "";
  }

  lemma KeepOne(c: char)
    ensures KeepSlugChars([c]) == if IsSlugChar(c) then [c] else ""
  {
    assert [c][1..] == "";
  }

  lemma KeptOne(lower: Lower, c: char)
    ensures Kept(lower, [c]) ==
            if IsWordChar(lower(c)) then [lower(c)] else if IsSeparator(lower(c)) then "-" else ""
  {
    var m := lower(c);
    var spaced := if m == ' ' then '-' else m;
    MappedOne(c, lower);
    ReplacedOne(m, ' ', '-');
    ReplacedOne(spaced, '_', '-');
    KeepOne(if spaced == '_' then '-' else spaced);
  }

  lemma KeptSeparator(lower: Lower, sep: char)
    requires LowersAscii(lower) && IsSeparator(sep)
    ensures Kept(lower, [sep]) == "-"
  {
    KeptOne(lower, sep);
  }

  // ----- Dashes between words -----

  /** No dash in it. */
  ghost predicate Dashless(s: string) {
    forall i :: 0 <= i < |s| ==> s[i] != '-'
  }

  ghost predicate AllDashes(s: string) {
    forall i :: 0 <= i < |s| ==> s[i] == '-'
  }

  /** Two words, or what there is of them, with a dash between. */
  function Glued(a: string, b: string): string {
    if a == "" then b else if b == "" then a else a + "-" + b
  }

  lemma DashedAfterDash(k: string)
    ensures Dashed("-" + k) == Dashed(k)
  {
    var s := "-" + k;
    assert s[1..] == k;
    if k != "" && k[0] == '-' {
      assert CollapseDashes(s) == CollapseDashes(k);
    } else {
      assert CollapseDashes(s) == "-" + CollapseDashes(k);
      assert ("-" + CollapseDashes(k))[1..] == CollapseDashes(k);
    }
  }

  lemma {:induction false} CollapseWord(w: string, rest: string)
    requires Dashless(w)
    ensures CollapseDashes(w + rest) == w + CollapseDashes(rest)
  {
    if w == "" {
      assert w + rest == rest;
    } else {
      var s := w + rest;
      assert s[1..] == w[1..] + rest && s[0] == w[0];
      CollapseWord(w[1..], rest);
      assert w == [w[0]] + w[1..];
    }
  }

  lemma {:induction false} TrimRightKeeps(a: string, b: string)
    requires TrimRight(b) != ""
    ensures TrimRight(a + b) == a + TrimRight(b)
  {
    var s := a + b;
    if b[|b| - 1] == '-' {
      assert s[..|s| - 1] == a + b[..|b| - 1];
      TrimRightKeeps(a, b[..|b| - 1]);
    }
  }

  lemma {:induction false} TrimRightDrops(a: string, b: string)
    requires TrimRight(b) == ""
    ensures TrimRight(a + b) == TrimRight(a)
  {
    var s := a + b;
    if b == "" {
      assert s == a;
    } else {
      assert b[|b| - 1] == '-';
      assert s[..|s| - 1] == a + b[..|b| - 1];
      TrimRightDrops(a, b[..|b| - 1]);
    }
  }

  lemma WordStays(w: string)
    requires w != "" && Dashless(w)
    ensures TrimLeft(w) == w && TrimRight(w) == w
  {
  }

  /** A word and what follows it behind a dash. */
  lemma DashedWord(w: string, rest: string)
    requires w != "" && Dashless(w)
    ensures Dashed(w + "-" + rest) == Glued(w, Dashed(rest))
    ensures Dashed(w) == w
  {
    WordStays(w);
    CollapseWord(w, "");
    assert w + "" == w && CollapseDashes("") == "";
    var tail := "-" + rest;
    assert w + "-" + rest == w + tail;
    CollapseWord(w, tail);
    DashedAfterDash(rest);
    CollapsedHasSingleDashes(tail);
    var collapsed := CollapseDashes(tail);
    var z := collapsed[1..];
    assert collapsed == "-" + z;
    assert TrimLeft(collapsed) == TrimLeft(z);
    assert z != "" ==> z[0] != '-' by {
      if z != "" {
        assert !(collapsed[0] == '-' && collapsed[1] == '-');
      }
    }
    assert w + collapsed == w + "-" + z;
    TrimmedWord(w, z);
  }

  lemma TrimmedWord(w: string, z: string)
    requires w != "" && Dashless(w) && (z != "" ==> z[0] != '-')
    ensures TrimLeft(z) == z && TrimRight(TrimLeft(w + "-" + z)) == Glued(w, TrimRight(z))
  {
    WordStays(w);
    var all := w + "-" + z;
    assert all[0] == w[0] && TrimLeft(all) == all;
    if TrimRight(z) == "" {
      TrimRightDrops(w + "-", z);
      assert (w + "-")[..|w|] == w;
    } else {
      TrimRightKeeps(w + "-", z);
    }
  }

  function WordLength(k: string): (n: nat)
    ensures n <= |k| && Dashless(k[..n]) && (n < |k| ==> k[n] == '-')
  {
    if k == "" || k[0] == '-' then 0
    else
      assert k[..1 + WordLength(k[1..])] == [k[0]] + k[1..][..WordLength(k[1..])];
      1 + WordLength(k[1..])
  }

  lemma GluedAssociates(a: string, b: string, c: string)
    ensures Glued(Glued(a, b), c) == Glued(a, Glued(b, c))
  {
    if a != "" && b != "" && c != "" {
      assert a + "-" + b + "-" + c == a + "-" + (b + "-" + c);
    }
  }

  /** A dash separates: what stands on its two sides is tidied on its own. */
  lemma {:induction false} DashSeparates(x: string, y: string)
    ensures Dashed(x + "-" + y) == Glued(Dashed(x), Dashed(y))
    decreases |x|
  {
    if x == "" {
      assert x + "-" + y == "-" + y;
      DashedAfterDash(y);
    } else if x[0] == '-' {
      assert x == "-" + x[1..];
      assert x + "-" + y == "-" + (x[1..] + "-" + y);
      DashedAfterDash(x[1..]);
      DashedAfterDash(x[1..] + "-" + y);
      DashSeparates(x[1..], y);
    } else {
      var n := WordLength(x);
      var w := x[..n];
      if n == |x| {
        assert w == x;
        DashedWord(w, y);
      } else {
        var rest := x[n + 1..];
        assert x == w + "-" + rest;
        assert x + "-" + y == w + "-" + (rest + "-" + y);
        DashedWord(w, rest);
        DashedWord(w, rest + "-" + y);
        DashSeparates(rest, y);
        GluedAssociates(w, Dashed(rest), Dashed(y));
      }
    }
  }

  lemma {:induction false} DashesVanish(k: string)
    ensures Dashed(k) == "" <==> AllDashes(k)
    decreases |k|
  {
    if k == "" {
    } else if k[0] == '-' {
      assert k == "-" + k[1..];
      DashedAfterDash(k[1..]);
      DashesVanish(k[1..]);
      assert AllDashes(k) ==> AllDashes(k[1..]);
      assert AllDashes(k[1..]) ==> AllDashes(k);
    } else {
      var n := WordLength(k);
      if n == |k| {
        assert k[..n] == k;
        DashedWord(k, "");
      } else {
        assert k == k[..n] + "-" + k[n + 1..];
        DashedWord(k[..n], k[n + 1..]);
      }
    }
  }

  /** What is left of a title is nothing exactly if it has no word. */
  lemma {:induction false} NothingKeptIff(lower: Lower, title: string)
    ensures AllDashes(Kept(lower, title)) <==> !HasWord(lower, title)
  {
    if title != "" {
      var c, rest := title[0], title[1..];
      assert title == [c] + rest;
      KeptConcat(lower, [c], rest);
      KeptOne(lower, c);
      NothingKeptIff(lower, rest);
      DashesConcat(Kept(lower, [c]), Kept(lower, rest));
      if HasWord(lower, rest) {
        var i :| 0 <= i < |rest| && IsWordChar(lower(rest[i]));
        assert title[i + 1] == rest[i];
      }
      if HasWord(lower, title) && !IsWordChar(lower(c)) {
        var i :| 0 <= i < |title| && IsWordChar(lower(title[i]));
        assert rest[i - 1] == title[i];
      }
      assert IsWordChar(lower(c)) ==> !AllDashes([lower(c)]);
    }
  }

  lemma DashesConcat(a: string, b: string)
    ensures AllDashes(a + b) <==> AllDashes(a) && AllDashes(b)
  {
    if AllDashes(a + b) {
      forall i | 0 <= i < |a|
        ensures a[i] == '-'
      {
        assert (a + b)[i] == a[i];
      }
      forall i | 0 <= i < |b|
        ensures b[i] == '-'
      {
        assert (a + b)[|a| + i] == b[i];
      }
    }
  }

  lemma LeftOfTitle(lower: Lower, title: string)
    ensures Dashed(Kept(lower, title)) == "" <==> !HasWord(lower, title)
  {
    DashesVanish(Kept(lower, title));
    NothingKeptIff(lower, title);
  }

  // ----- The cut -----

  lemma DashedShape(k: string)
    ensures SingleDashes(Dashed(k))
    ensures Dashed(k) != "" ==> Dashed(k)[0] != '-' && Dashed(k)[|Dashed(k)| - 1] != '-'
  {
    var s := CollapseDashes(k);
    CollapsedHasSingleDashes(k);
    TrimLeftIsSuffix(s);
    var l := TrimLeft(s);
    SingleDashesSlice(s, |s| - |l|, |s|);
    TrimRightIsPrefix(l);
    SingleDashesSlice(l, 0, |TrimRight(l)|);
  }

  lemma SingleDashesSlice(s: string, i: nat, j: nat)
    requires i <= j <= |s| && SingleDashes(s)
    ensures SingleDashes(s[i..j])
  {
    var t := s[i..j];
    forall k | 0 <= k < |t| - 1
      ensures !(t[k] == '-' && t[k + 1] == '-')
    {
      assert t[k] == s[i + k] && t[k + 1] == s[i + k + 1];
    }
  }

  /** The first 100 characters, without a dash at the end. */
  function FirstHundred(s: string): string
    requires |s| >= 100
  {
    if s[99] == '-' then s[..99] else s[..100]
  }

  lemma CutAtDash(d: string)
    requires |d| > 100 && SingleDashes(d) && d[99] == '-'
    ensures TrimRight(d[..100]) == d[..99]
  {
    var cut := d[..100];
    assert d[98] != '-';
    assert cut[..99] == d[..99];
    assert TrimRight(cut) == TrimRight(d[..99]) == d[..99];
  }

  lemma CutMeans(k: string)
    ensures var d := Dashed(k);
            Cut(d) == if d == "" then "untitled" else if |d| <= 100 then d else FirstHundred(d)
    ensures Dashed(k) != "" && |Dashed(k)| > 100 ==> |Cut(Dashed(k))| >= 99
  {
    var d := Dashed(k);
    DashedShape(k);
    if |d| > 100 {
      var cut := d[..100];
      if d[99] == '-' {
        CutAtDash(d);
      } else {
        assert TrimRight(cut) == cut;
      }
    }
  }

  // ----- The laws -----

  lemma TitleOf(lower: Lower, title: string)
    ensures var d := Dashed(Kept(lower, title));
            && (Slugify(lower, title) == if d == "" then "untitled" else if |d| <= 100 then d else FirstHundred(d))
            && (d == "" <==> !HasWord(lower, title))
            && (|d| > 100 ==> |Slugify(lower, title)| >= 99)
  {
    SlugifySteps(lower, title);
    CutMeans(Kept(lower, title));
    LeftOfTitle(lower, title);
  }

  lemma SeparatedTitle(lower: Lower, a: string, sep: char, b: string)
    requires LowersAscii(lower) && IsSeparator(sep)
    ensures Dashed(Kept(lower, a + [sep] + b)) == Glued(Dashed(Kept(lower, a)), Dashed(Kept(lower, b)))
  {
    KeptConcat(lower, a + [sep], b);
    KeptConcat(lower, a, [sep]);
    KeptSeparator(lower, sep);
    DashSeparates(Kept(lower, a), Kept(lower, b));
  }

  /** A space, an underscore or a dash between two parts with something to keep becomes one dash
      between their slugs. */
  lemma SeparatorsBecomeDashes(lower: Lower, a: string, sep: char, b: string)
    requires LowersAscii(lower) && (sep == ' ' || sep == '_' || sep == '-')
    requires HasWord(lower, a) && HasWord(lower, b)
    requires |Slugify(lower, a)| + 1 + |Slugify(lower, b)| <= 100
    ensures Slugify(lower, a + [sep] + b) == Slugify(lower, a) + "-" + Slugify(lower, b)
  {
    TitleOf(lower, a);
    TitleOf(lower, b);
    SeparatedTitle(lower, a, sep, b);
    TitleOf(lower, a + [sep] + b);
  }

  /** Beyond 100 characters: the first 100 of that, without a dash at the end. */
  lemma LongTitlesAreCut(lower: Lower, a: string, sep: char, b: string)
    requires LowersAscii(lower) && (sep == ' ' || sep == '_' || sep == '-')
    requires HasWord(lower, a) && HasWord(lower, b)
    requires |Slugify(lower, a)| + 1 + |Slugify(lower, b)| > 100
    ensures var joined := Slugify(lower, a) + "-" + Slugify(lower, b);
            Slugify(lower, a + [sep] + b) == if joined[99] == '-' then joined[..99] else joined[..100]
  {
    TitleOf(lower, a);
    TitleOf(lower, b);
    SeparatedTitle(lower, a, sep, b);
    TitleOf(lower, a + [sep] + b);
    var da, db := Dashed(Kept(lower, a)), Dashed(Kept(lower, b));
    assert Slugify(lower, a) <= da && Slugify(lower, b) <= db;
    JoinedPrefix(Slugify(lower, a), da, Slugify(lower, b), db);
  }

  /** Cutting the parts first does not show in the first 100 characters of the whole. */
  lemma JoinedPrefix(a: string, da: string, b: string, db: string)
    requires a <= da && b <= db && |a| + 1 + |b| > 100
    requires |da| <= 100 ==> a == da
    requires |da| > 100 ==> a == FirstHundred(da)
    ensures (a + "-" + b)[..100] == (da + "-" + db)[..100] && (a + "-" + b)[..99] == (da + "-" + db)[..99]
  {
    var joined, all := a + "-" + b, da + "-" + db;
    assert joined[..100] == all[..100];
    assert joined[..99] == joined[..100][..99] == all[..99];
  }

  /** Parts with nothing to keep at either end make no difference. */
  lemma EdgesVanish(lower: Lower, title: string, edge: string)
    requires !HasWord(lower, edge)
    ensures Slugify(lower, title + edge) == Slugify(lower, title) == Slugify(lower, edge + title)
  {
    KeptConcat(lower, title, edge);
    KeptConcat(lower, edge, title);
    NothingKeptIff(lower, edge);
    DashesAtTheEnds(Kept(lower, title), Kept(lower, edge));
    SlugifySteps(lower, title + edge);
    SlugifySteps(lower, edge + title);
    SlugifySteps(lower, title);
  }

  lemma {:induction false} DashesAtTheEnds(k: string, dashes: string)
    requires AllDashes(dashes)
    ensures Dashed(k + dashes) == Dashed(k) == Dashed(dashes + k)
  {
    if dashes == "" {
      assert k + dashes == k == dashes + k;
    } else {
      var rest := dashes[1..];
      assert dashes == "-" + rest;
      assert k + dashes == k + "-" + rest;
      DashSeparates(k, rest);
      DashesVanish(rest);
      assert dashes + k == "-" + (rest + k);
      DashedAfterDash(rest + k);
      DashesAtTheEnds(k, rest);
    }
  }

  /** A character that is neither kept nor a separator can be left out anywhere. */
  lemma OthersVanish(lower: Lower, a: string, c: char, b: string)
    requires !IsSlugChar(lower(c)) && lower(c) != ' ' && lower(c) != '_'
    ensures Slugify(lower, a + [c] + b) == Slugify(lower, a + b)
  {
    KeptConcat(lower, a + [c], b);
    KeptConcat(lower, a, [c]);
    KeptConcat(lower, a, b);
    KeptOne(lower, c);
    assert Kept(lower, a) + "" == Kept(lower, a);
    SlugifySteps(lower, a + [c] + b);
    SlugifySteps(lower, a + b);
  }

  lemma {:induction false} KeptRun(lower: Lower, run: string)
    requires forall i :: 0 <= i < |run| ==> IsWordChar(lower(run[i]))
    ensures |Kept(lower, run)| == |run|
    ensures forall i :: 0 <= i < |run| ==> Kept(lower, run)[i] == lower(run[i])
  {
    if run != "" {
      var rest := run[1..];
      assert run == [run[0]] + rest;
      KeptConcat(lower, [run[0]], rest);
      KeptOne(lower, run[0]);
      KeptRun(lower, rest);
    }
  }

  /** A run of letters and digits gives its lower case, up to 100 of it. */
  lemma RunsAreLowered(lower: Lower, run: string)
    requires run != ""
    requires forall i :: 0 <= i < |run| ==> 'a' <= lower(run[i]) <= 'z' || '0' <= lower(run[i]) <= '9'
    ensures |Slugify(lower, run)| == if |run| <= 100 then |run| else 100
    ensures forall i :: 0 <= i < |Slugify(lower, run)| ==> Slugify(lower, run)[i] == lower(run[i])
  {
    KeptRun(lower, run);
    var k := Kept(lower, run);
    assert Dashless(k);
    DashedWord(k, "");
    TitleOf(lower, run);
  }

  /** Only a title with nothing to keep is called untitled; any other slug begins with the first
      letter or digit of its title. */
  lemma UntitledIffNothingKept(lower: Lower, title: string)
    requires LowersAscii(lower)
    ensures !HasWord(lower, title) ==> Slugify(lower, title) == "untitled"
    ensures HasWord(lower, title) ==>
              exists i :: FirstWordChar(lower, title, i) && Slugify(lower, title)[..1] == [lower(title[i])]
  {
    TitleOf(lower, title);
    if HasWord(lower, title) {
      var i := FirstKept(lower, title);
      var edge, rest := title[..i], title[i..];
      assert title == edge + rest;
      EdgesVanish(lower, rest, edge);
      StartsWithFirst(lower, rest);
    }
  }

  ghost predicate FirstWordChar(lower: Lower, title: string, i: int) {
    0 <= i < |title| && IsWordChar(lower(title[i])) && forall j :: 0 <= j < i ==> !IsWordChar(lower(title[j]))
  }

  lemma {:induction false} FirstKept(lower: Lower, title: string) returns (i: nat)
    requires HasWord(lower, title)
    ensures FirstWordChar(lower, title, i) && !HasWord(lower, title[..i])
  {
    if IsWordChar(lower(title[0])) {
      i := 0;
    } else {
      var rest := title[1..];
      var k :| 0 <= k < |title| && IsWordChar(lower(title[k]));
      assert rest[k - 1] == title[k];
      var j := FirstKept(lower, rest);
      i := j + 1;
      forall m | 0 <= m < i
        ensures !IsWordChar(lower(title[m]))
      {
        if m > 0 {
          assert title[m] == rest[m - 1];
        }
      }
    }
  }

  lemma StartsWithFirst(lower: Lower, title: string)
    requires title != "" && IsWordChar(lower(title[0]))
    ensures Slugify(lower, title)[..1] == [lower(title[0])]
  {
    var c, rest := title[0], title[1..];
    assert title == [c] + rest;
    KeptConcat(lower, [c], rest);
    KeptOne(lower, c);
    var k := Kept(lower, title);
    assert k == [lower(c)] + Kept(lower, rest) && k[0] != '-';
    var n := WordLength(k);
    assert n > 0 && k[..n][0] == lower(c);
    if n == |k| {
      assert k[..n] == k;
      DashedWord(k, "");
    } else {
      assert k == k[..n] + "-" + k[n + 1..];
      DashedWord(k[..n], k[n + 1..]);
    }
    assert Dashed(k)[0] == lower(c);
    TitleOf(lower, title);
  }
}
