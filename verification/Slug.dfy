/** Slugify: the pipeline from a title to a URL segment. */
module Slug {
  import opened Collections

  const MAX_LEN: nat := 100

  /** Lower-casing one code point; beyond ASCII it may be anything, ASCII letters included. */
  type Lower = char -> char

  predicate IsSlugChar(c: char) {
    'a' <= c <= 'z' || '0' <= c <= '9' || c == '-'
  }

  ghost predicate LowersAscii(lower: Lower) {
    forall c: char :: c <= 127 as char ==> lower(c) == (if 'A' <= c <= 'Z' then c + 32 as char else c)
  }

  function Mapped(s: string, f: char -> char): string {
    if s == "" then "" else [f(s[0])] + Mapped(s[1..], f)
  }

  function ReplaceAll(s: string, from: char, to: char): string {
    Mapped(s, c => if c == from then to else c)
  }

  /** Deleting every match of [^a-z0-9-]+. */
  function KeepSlugChars(s: string): string {
    if s == "" then ""
    else if IsSlugChar(s[0]) then [s[0]] + KeepSlugChars(s[1..])
    else KeepSlugChars(s[1..])
  }

  /** Replacing every match of -+ by one dash. */
  function CollapseDashes(s: string): string {
    if s == "" then ""
    else if |s| > 1 && s[0] == '-' && s[1] == '-' then CollapseDashes(s[1..])
    else [s[0]] + CollapseDashes(s[1..])
  }

  function TrimLeft(s: string): string {
    if s != "" && s[0] == '-' then TrimLeft(s[1..]) else s
  }

  function TrimRight(s: string): string {
    if s != "" && s[|s| - 1] == '-' then TrimRight(s[..|s| - 1]) else s
  }

  function Shorten(s: string): string {
    if |s| > MAX_LEN then TrimRight(s[..MAX_LEN]) else s
  }

  function Slugify(lower: Lower, title: string): string {
    var dashed := ReplaceAll(ReplaceAll(Mapped(title, lower), ' ', '-'), '_', '-');
    var s := Shorten(TrimRight(TrimLeft(CollapseDashes(KeepSlugChars(dashed)))));
    if s == "" then "untitled" else s
  }

  // ----- The shape of a slug -----

  ghost predicate SlugChars(s: string) {
    forall i :: 0 <= i < |s| ==> IsSlugChar(s[i])
  }

  ghost predicate SingleDashes(s: string) {
    forall i :: 0 <= i < |s| - 1 ==> !(s[i] == '-' && s[i + 1] == '-')
  }

  /** Non-empty, at most 100 of a-z, 0-9 and single interior dashes. */
  ghost predicate IsSlug(s: string) {
    && 0 < |s| <= MAX_LEN
    && SlugChars(s) && SingleDashes(s)
    && s[0] != '-' && s[|s| - 1] != '-'
  }

  lemma {:induction false} KeptAreSlugChars(s: string)
    ensures SlugChars(KeepSlugChars(s))
    ensures SlugChars(s) ==> KeepSlugChars(s) == s
  {
    if s != "" {
      KeptAreSlugChars(s[1..]);
      assert SlugChars(s) ==> SlugChars(s[1..]);
      assert s == [s[0]] + s[1..];
    }
  }

  lemma {:induction false} CollapsedHasSingleDashes(s: string)
    ensures SlugChars(s) ==> SlugChars(CollapseDashes(s))
    ensures SingleDashes(CollapseDashes(s))
    ensures s != "" ==> CollapseDashes(s) != "" && CollapseDashes(s)[0] == s[0]
    ensures SingleDashes(s) ==> CollapseDashes(s) == s
  {
    if s != "" {
      var rest := s[1..];
      CollapsedHasSingleDashes(rest);
      assert SlugChars(s) ==> SlugChars(rest);
      assert SingleDashes(s) ==> SingleDashes(rest) by {
        if SingleDashes(s) {
          forall i | 0 <= i < |rest| - 1
            ensures !(rest[i] == '-' && rest[i + 1] == '-')
          {
            assert rest[i] == s[i + 1] && rest[i + 1] == s[i + 2];
          }
        }
      }
      assert s == [s[0]] + rest;
      assert rest != "" ==> rest[0] == s[1];
    }
  }

  lemma {:induction false} TrimLeftIsSuffix(s: string)
    ensures |TrimLeft(s)| <= |s| && TrimLeft(s) == s[|s| - |TrimLeft(s)|..]
    ensures TrimLeft(s) != "" ==> TrimLeft(s)[0] != '-'
  {
    if s != "" && s[0] == '-' {
      TrimLeftIsSuffix(s[1..]);
    }
  }

  lemma {:induction false} TrimRightIsPrefix(s: string)
    ensures |TrimRight(s)| <= |s| && TrimRight(s) == s[..|TrimRight(s)|]
    ensures TrimRight(s) != "" ==> TrimRight(s)[|TrimRight(s)| - 1] != '-'
  {
    if s != "" && s[|s| - 1] == '-' {
      TrimRightIsPrefix(s[..|s| - 1]);
    }
  }

  lemma SlicesKeepShape(s: string, i: nat, j: nat)
    requires i <= j <= |s| && SlugChars(s) && SingleDashes(s)
    ensures SlugChars(s[i..j]) && SingleDashes(s[i..j])
  {
    var t := s[i..j];
    forall k | 0 <= k < |t| - 1
      ensures !(t[k] == '-' && t[k + 1] == '-')
    {
      assert t[k] == s[i + k] && t[k + 1] == s[i + k + 1];
    }
  }

  /** Trimming and shortening text of slug characters leaves nothing or a slug. */
  lemma TrimmedIsSlug(s: string)
    requires SlugChars(s) && SingleDashes(s)
    ensures var r := Shorten(TrimRight(TrimLeft(s))); r == "" || IsSlug(r)
  {
    var l := TrimLeft(s);
    TrimLeftIsSuffix(s);
    SlicesKeepShape(s, |s| - |l|, |s|);
    var m := TrimRight(l);
    TrimRightIsPrefix(l);
    SlicesKeepShape(l, 0, |m|);
    if |m| > MAX_LEN {
      var cut := m[..MAX_LEN];
      SlicesKeepShape(m, 0, MAX_LEN);
      TrimRightIsPrefix(cut);
      SlicesKeepShape(cut, 0, |TrimRight(cut)|);
    }
  }

  /** Every result is a slug. */
  lemma SlugifyGivesSlug(lower: Lower, title: string)
    ensures IsSlug(Slugify(lower, title))
  {
    var dashed := ReplaceAll(ReplaceAll(Mapped(title, lower), ' ', '-'), '_', '-');
    KeptAreSlugChars(dashed);
    CollapsedHasSingleDashes(KeepSlugChars(dashed));
    TrimmedIsSlug(CollapseDashes(KeepSlugChars(dashed)));
  }

  lemma {:induction false} MappedFixes(s: string, f: char -> char)
    requires forall i :: 0 <= i < |s| ==> f(s[i]) == s[i]
    ensures Mapped(s, f) == s
  {
    if s != "" {
      assert forall i :: 0 <= i < |s| - 1 ==> s[1..][i] == s[i + 1];
      MappedFixes(s[1..], f);
      assert s == [s[0]] + s[1..];
    }
  }

  /** The slugs are exactly the titles that Slugify leaves alone. */
  lemma SlugifyFixesExactlySlugs(lower: Lower, s: string)
    requires LowersAscii(lower)
    ensures Slugify(lower, s) == s <==> IsSlug(s)
  {
    if IsSlug(s) {
      MappedFixes(s, lower);
      MappedFixes(s, c => if c == ' ' then '-' else c);
      MappedFixes(s, c => if c == '_' then '-' else c);
      KeptAreSlugChars(s);
      CollapsedHasSingleDashes(s);
    }
    SlugifyGivesSlug(lower, s);
  }

  lemma SlugifyIsIdempotent(lower: Lower, title: string)
    requires LowersAscii(lower)
    ensures Slugify(lower, Slugify(lower, title)) == Slugify(lower, title)
  {
    SlugifyGivesSlug(lower, title);
    SlugifyFixesExactlySlugs(lower, Slugify(lower, title));
  }

  /** NoteViewGet: Some(slug) is a redirect to the canonical URL, None renders the note. */
  function NoteViewGet(lower: Lower, title: string, pathSlug: string): Option<string> {
    var expected := Slugify(lower, title);
    if expected != pathSlug then Some(expected) else None
  }

  /** A path renders the note exactly if it has the shape of a slug and slugs to what the title
      slugs to: no other path is rendered, however close it comes. */
  lemma RendersExactlyItsSlug(lower: Lower, title: string, pathSlug: string)
    requires LowersAscii(lower)
    ensures NoteViewGet(lower, title, pathSlug) == None <==>
            IsSlug(pathSlug) && Slugify(lower, pathSlug) == Slugify(lower, title)
  {
    SlugifyGivesSlug(lower, title);
    SlugifyFixesExactlySlugs(lower, pathSlug);
  }

  /** The redirect leads to a single legal path segment, which is rendered; and no URL made from
      the slug itself as a title would be redirected either. */
  lemma RedirectsAtMostOnce(lower: Lower, title: string, pathSlug: string)
    requires LowersAscii(lower)
    requires NoteViewGet(lower, title, pathSlug).Some?
    ensures var target := NoteViewGet(lower, title, pathSlug).value;
            && IsSlug(target) && '/' !in target
            && NoteViewGet(lower, title, target) == None
            && NoteViewGet(lower, target, target) == None
  {
    SlugifyGivesSlug(lower, title);
    SlugifyIsIdempotent(lower, title);
  }
}
