/**
  The slug normaliser of `mapVehicle` (libs/map.js:18-22), written over
  ASCII characters instead of regular expressions. The pipeline is:
    lower-case;
    replace every maximal run of characters outside [a-z0-9-] by one "-"   (/[^a-z0-9-]+/g);
    replace every run of two or more "-" by one "-"                        (/--+/g);
    drop one leading "-" and one trailing "-"                              (/^-|-$/g).
*/
module Slug {

  /** ASCII lower-casing; every other character is left alone. */
  function Lower(c: char): char {
    if 'A' <= c <= 'Z' then (c as int + 32) as char else c
  }

  function LowerAll(s: string): (r: string)
    ensures |r| == |s|
    ensures forall i :: 0 <= i < |s| ==> r[i] == Lower(s[i])
  {
    seq(|s|, i requires 0 <= i < |s| => Lower(s[i]))
  }

  predicate IsAlnum(c: char) {
    'a' <= c <= 'z' || '0' <= c <= '9'
  }

  /** The characters a slug may contain: [a-z0-9-]. */
  predicate Legal(c: char) {
    IsAlnum(c) || c == '-'
  }

  predicate AllLegal(s: string) {
    forall i :: 0 <= i < |s| ==> Legal(s[i])
  }

  predicate NoDoubleDash(s: string) {
    forall i :: 0 <= i < |s| - 1 ==> !(s[i] == '-' && s[i + 1] == '-')
  }

  predicate DashFree(s: string) {
    forall i :: 0 <= i < |s| ==> s[i] != '-'
  }

  /** Starts with something other than a dash (or is empty). */
  predicate NoLeadingDash(s: string) {
    s == [] || s[0] != '-'
  }

  predicate NoTrailingDash(s: string) {
    s == [] || s[|s| - 1] != '-'
  }

  /** What the normaliser promises of its output. */
  predicate IsSlug(s: string) {
    AllLegal(s) && NoDoubleDash(s) && NoLeadingDash(s) && NoTrailingDash(s)
  }

  /**
    /[^a-z0-9-]+/g -> "-". `inRun` says that the character before `s` was
    illegal and has already been replaced by the run's single dash.
  */
  function ReplaceIllegal(s: string, inRun: bool): (r: string)
    ensures AllLegal(r)
    ensures AllLegal(s) ==> r == s
    decreases |s|
  {
    if s == [] then []
    else if Legal(s[0]) then [s[0]] + ReplaceIllegal(s[1..], false)
    else if inRun then ReplaceIllegal(s[1..], true)
    else ['-'] + ReplaceIllegal(s[1..], true)
  }

  /**
    /--+/g -> "-": every maximal run of dashes becomes one dash.
    `afterDash` says that the character before `s` was a dash that has
    already been written.
  */
  function CollapseDashes(s: string, afterDash: bool): (r: string)
    ensures NoDoubleDash(r)
    ensures afterDash ==> NoLeadingDash(r)
    ensures AllLegal(s) ==> AllLegal(r)
    ensures NoDoubleDash(s) && (afterDash ==> NoLeadingDash(s)) ==> r == s
    decreases |s|
  {
    if s == [] then []
    else if s[0] == '-' then
      if afterDash then CollapseDashes(s[1..], true) else ['-'] + CollapseDashes(s[1..], true)
    else [s[0]] + CollapseDashes(s[1..], false)
  }

  /** /^-|-$/g -> "": at most one dash comes off each end. */
  function TrimDashes(s: string): (r: string)
    ensures AllLegal(s) ==> AllLegal(r)
    ensures NoDoubleDash(s) ==> NoDoubleDash(r) && NoLeadingDash(r) && NoTrailingDash(r)
    ensures NoLeadingDash(s) && NoTrailingDash(s) ==> r == s
  {
    var t := if s != [] && s[0] == '-' then s[1..] else s;
    if t != [] && t[|t| - 1] == '-' then t[..|t| - 1] else t
  }

  /** The whole normaliser. */
  function Slugify(s: string): (r: string)
    ensures IsSlug(r)
    ensures IsSlug(s) ==> r == s
  {
    LowerFixesSlug(s);
    TrimDashes(CollapseDashes(ReplaceIllegal(LowerAll(s), false), false))
  }

  lemma LowerFixesSlug(s: string)
    ensures AllLegal(s) ==> LowerAll(s) == s
  {
  }

  /** Normalising twice is the same as normalising once. */
  lemma SlugifyIdempotent(s: string)
    ensures Slugify(Slugify(s)) == Slugify(s)
  {
  }

  /** The letters and digits of a string, in order. */
  function Alnums(s: string): (r: string)
    ensures DashFree(r)
    decreases |s|
  {
    if s == [] then [] else (if IsAlnum(s[0]) then [s[0]] else []) + Alnums(s[1..])
  }

  lemma AlnumsAppend(a: string, b: string)
    ensures Alnums(a + b) == Alnums(a) + Alnums(b)
    decreases |a|
  {
    if a == [] {
      assert a + b == b;
    } else {
      assert (a + b)[0] == a[0] && (a + b)[1..] == a[1..] + b;
      AlnumsAppend(a[1..], b);
    }
  }

  lemma {:induction false} ReplaceIllegalKeepsAlnums(s: string, inRun: bool)
    ensures Alnums(ReplaceIllegal(s, inRun)) == Alnums(s)
    decreases |s|
  {
    if s != [] {
      ReplaceIllegalKeepsAlnums(s[1..], !Legal(s[0]));
      if Legal(s[0]) {
        AlnumsAppend([s[0]], ReplaceIllegal(s[1..], false));
      } else if !inRun {
        AlnumsAppend(['-'], ReplaceIllegal(s[1..], true));
      }
    }
  }

  lemma {:induction false} CollapseKeepsAlnums(s: string, afterDash: bool)
    ensures Alnums(CollapseDashes(s, afterDash)) == Alnums(s)
    decreases |s|
  {
    if s != [] {
      CollapseKeepsAlnums(s[1..], s[0] == '-');
      if s[0] != '-' {
        AlnumsAppend([s[0]], CollapseDashes(s[1..], false));
      } else if !afterDash {
        AlnumsAppend(['-'], CollapseDashes(s[1..], true));
      }
    }
  }

  lemma TrimKeepsAlnums(s: string)
    ensures Alnums(TrimDashes(s)) == Alnums(s)
  {
    var t := if s != [] && s[0] == '-' then s[1..] else s;
    if s != [] && s[0] == '-' {
      assert s == ['-'] + t;
      AlnumsAppend(['-'], t);
    }
    if t != [] && t[|t| - 1] == '-' {
      assert t == t[..|t| - 1] + ['-'];
      AlnumsAppend(t[..|t| - 1], ['-']);
    }
  }

  /**
    Nothing but separators is lost: the letters and digits of the slug are
    exactly the (lower-cased) letters and digits of the input, in order.
  */
  lemma SlugifyKeepsAlnums(s: string)
    ensures Alnums(Slugify(s)) == Alnums(LowerAll(s))
  {
    var a := ReplaceIllegal(LowerAll(s), false);
    ReplaceIllegalKeepsAlnums(LowerAll(s), false);
    CollapseKeepsAlnums(a, false);
    TrimKeepsAlnums(CollapseDashes(a, false));
  }
}
