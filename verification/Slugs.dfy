/** Slugs and the search for a free one (backend/app/core/slugs.py,
    backend/app/services/organization_service.py:13-22). */
module Slugs {
  predicate Kept(c: char) {
    'a' <= c <= 'z' || '0' <= c <= '9'
  }

  /** re.sub(r"[^a-z0-9]+", "-", s): each maximal run of other characters becomes one hyphen. */
  function Collapse(s: string, inRun: bool): string {
    if s == [] then []
    else if Kept(s[0]) then [s[0]] + Collapse(s[1..], false)
    else if inRun then Collapse(s[1..], true)
    else ['-'] + Collapse(s[1..], true)
  }

  function StripLeft(s: string): string {
    if s != [] && s[0] == '-' then StripLeft(s[1..]) else s
  }

  function StripRight(s: string): string {
    if s != [] && s[|s| - 1] == '-' then StripRight(s[..|s| - 1]) else s
  }

  /** `lower` is the language's own lower-casing, and `token` the eight random hexadecimal digits
      used when nothing of the name survives. */
  function Slugify(value: string, lower: string -> string, token: string): string {
    var slug := StripRight(StripLeft(Collapse(lower(value), false)));
    if slug == [] then token else slug
  }

  ghost predicate Hyphenated(s: string) {
    && (forall i :: 0 <= i < |s| ==> Kept(s[i]) || s[i] == '-')
    && (forall i :: 0 < i < |s| ==> s[i] != '-' || s[i - 1] != '-')
  }

  /** Lower-case letters and digits in non-empty groups separated by single hyphens. */
  ghost predicate IsSlug(s: string) {
    s != [] && Hyphenated(s) && s[0] != '-' && s[|s| - 1] != '-'
  }

  ghost predicate IsToken(s: string) {
    |s| == 8 && forall i :: 0 <= i < |s| ==> '0' <= s[i] <= '9' || 'a' <= s[i] <= 'f'
  }

  /** Lower-casing leaves text alone that is already in the slug alphabet. */
  ghost predicate FixesSlugs(lower: string -> string) {
    forall s :: Hyphenated(s) ==> lower(s) == s
  }

  lemma {:induction false} CollapseHyphenates(s: string, inRun: bool)
    ensures var r := Collapse(s, inRun); Hyphenated(r) && (inRun && r != [] ==> r[0] != '-')
  {
    if s != [] {
      var gap := !Kept(s[0]);
      CollapseHyphenates(s[1..], gap);
    }
  }

  lemma {:induction false} StripLeftKeeps(s: string)
    requires Hyphenated(s)
    ensures var r := StripLeft(s); Hyphenated(r) && (r != [] ==> r[0] != '-')
  {
    if s != [] && s[0] == '-' { StripLeftKeeps(s[1..]); }
  }

  lemma {:induction false} StripRightKeeps(s: string)
    requires Hyphenated(s)
    ensures var r := StripRight(s); r <= s && Hyphenated(r) && (r != [] ==> r[|r| - 1] != '-')
  {
    if s != [] && s[|s| - 1] == '-' { StripRightKeeps(s[..|s| - 1]); }
  }

  /** Whatever the name, the result is a slug. */
  lemma SlugifyMakesSlugs(value: string, lower: string -> string, token: string)
    requires IsToken(token)
    ensures IsSlug(Slugify(value, lower, token))
  {
    CollapseHyphenates(lower(value), false);
    StripLeftKeeps(Collapse(lower(value), false));
    StripRightKeeps(StripLeft(Collapse(lower(value), false)));
  }

  lemma {:induction false} CollapseFixes(s: string, inRun: bool)
    requires Hyphenated(s) && (inRun && s != [] ==> s[0] != '-')
    ensures Collapse(s, inRun) == s
  {
    if s != [] {
      assert forall i :: 0 < i < |s[1..]| ==> s[1..][i - 1] == s[i];
      CollapseFixes(s[1..], !Kept(s[0]));
    }
  }

  /** The fixpoints are exactly the slugs; so slugify is idempotent. */
  lemma FixpointIffSlug(s: string, lower: string -> string, token: string)
    requires IsToken(token) && FixesSlugs(lower)
    ensures Slugify(s, lower, token) == s <==> IsSlug(s)
  {
    SlugifyMakesSlugs(s, lower, token);
    if IsSlug(s) { CollapseFixes(s, false); }
  }

  // ---------------------------------------------------------------- what of a name survives

  predicate LetterOrDigit(c: char) {
    'a' <= c <= 'z' || '0' <= c <= '9'
  }

  /** The maximal runs of lower-case letters and digits in a text, in order. */
  function Groups(s: string): (groups: seq<string>)
    ensures forall i :: 0 <= i < |groups| ==> groups[i] != []
    ensures s != [] && LetterOrDigit(s[0]) ==> groups != []
  {
    if s == [] then []
    else
      var rest := Groups(s[1..]);
      if !LetterOrDigit(s[0]) then rest
      else if |s| > 1 && LetterOrDigit(s[1]) then [[s[0]] + rest[0]] + rest[1..]
      else [[s[0]]] + rest
  }

  function Hyphenate(groups: seq<string>): string {
    if groups == [] then [] else if |groups| == 1 then groups[0] else groups[0] + "-" + Hyphenate(groups[1..])
  }

  lemma {:induction false} GroupsAreKept(s: string)
    ensures var j := Hyphenate(Groups(s));
            if Groups(s) == [] then j == [] else j != [] && j[0] != '-' && j[|j| - 1] != '-'
    ensures Groups(s) == [] ==> forall i :: 0 <= i < |s| ==> !Kept(s[i])
  {
    if s != [] {
      var rest := Groups(s[1..]);
      GroupsAreKept(s[1..]);
      if |s| > 1 && LetterOrDigit(s[1]) { ExtendFirst(s[0], rest); } else { NewFirst(s[0], rest); }
    }
  }

  lemma ExtendFirst(c: char, rest: seq<string>)
    requires rest != []
    ensures Hyphenate([[c] + rest[0]] + rest[1..]) == [c] + Hyphenate(rest)
  {
    var groups := [[c] + rest[0]] + rest[1..];
    assert groups[1..] == rest[1..];
    if |rest| > 1 { assert [c] + rest[0] + "-" + Hyphenate(rest[1..]) == [c] + (rest[0] + "-" + Hyphenate(rest[1..])); }
  }

  lemma NewFirst(c: char, rest: seq<string>)
    ensures Hyphenate([[c]] + rest) == [c] + if rest == [] then [] else "-" + Hyphenate(rest)
  {
    assert ([[c]] + rest)[1..] == rest;
  }

  function Lead(s: string, inRun: bool): string {
    if s != [] && !Kept(s[0]) && !inRun then "-" else ""
  }

  function Trail(s: string): string {
    if s != [] && !Kept(s[|s| - 1]) && Groups(s) != [] then "-" else ""
  }

  lemma Regrouped(c: char, a: string, b: string)
    ensures [c] + (a + b) == ([c] + a) + b
  {
  }

  lemma KeptBeforeKept(s: string)
    requires |s| > 1 && Kept(s[0]) && Kept(s[1])
    requires Collapse(s[1..], false) == Lead(s[1..], false) + Hyphenate(Groups(s[1..])) + Trail(s[1..])
    ensures Collapse(s, false) == Hyphenate(Groups(s)) + Trail(s)
  {
    var rest := Groups(s[1..]);
    ExtendFirst(s[0], rest);
    Regrouped(s[0], Hyphenate(rest), Trail(s[1..]));
    assert Lead(s[1..], false) + Hyphenate(rest) == Hyphenate(rest);
    assert Trail(s) == Trail(s[1..]);
  }

  lemma KeptBeforeGap(s: string)
    requires |s| > 1 && Kept(s[0]) && !Kept(s[1])
    requires Collapse(s[1..], false) == Lead(s[1..], false) + Hyphenate(Groups(s[1..])) + Trail(s[1..])
    ensures Collapse(s, false) == Hyphenate(Groups(s)) + Trail(s)
  {
    var rest := Groups(s[1..]);
    NewFirst(s[0], rest);
    GroupsAreKept(s[1..]);
    Regrouped(s[0], "-" + Hyphenate(rest), Trail(s[1..]));
    if rest == [] {
      assert Collapse(s[1..], false) == "-" && Trail(s) == "-";
    } else {
      assert Trail(s) == Trail(s[1..]);
    }
  }

  lemma KeptAlone(s: string)
    requires |s| == 1 && Kept(s[0])
    ensures Collapse(s, false) == Hyphenate(Groups(s)) + Trail(s)
  {
    NewFirst(s[0], Groups(s[1..]));
    assert s[1..] == [];
  }

  lemma GapFirst(s: string, inRun: bool)
    requires s != [] && !Kept(s[0])
    requires Collapse(s[1..], true) == Lead(s[1..], true) + Hyphenate(Groups(s[1..])) + Trail(s[1..])
    ensures Collapse(s, inRun) == Lead(s, inRun) + Hyphenate(Groups(s)) + Trail(s)
  {
    GroupsAreKept(s[1..]);
    assert Groups(s) == Groups(s[1..]) && Trail(s) == Trail(s[1..]);
    assert Lead(s[1..], true) + Hyphenate(Groups(s)) == Hyphenate(Groups(s));
    if !inRun { Regrouped('-', Hyphenate(Groups(s)), Trail(s)); }
  }

  /** Collapsing gives the groups joined by hyphens, with one more hyphen for a gap at either end. */
  lemma {:induction false} CollapseJoinsGroups(s: string, inRun: bool)
    ensures Collapse(s, inRun) == Lead(s, inRun) + Hyphenate(Groups(s)) + Trail(s)
  {
    if s != [] {
      CollapseJoinsGroups(s[1..], !Kept(s[0]));
      if !Kept(s[0]) {
        GapFirst(s, inRun);
      } else {
        if |s| == 1 { KeptAlone(s); } else if Kept(s[1]) { KeptBeforeKept(s); } else { KeptBeforeGap(s); }
        assert Collapse(s, inRun) == Collapse(s, false);
        assert Lead(s, inRun) + Hyphenate(Groups(s)) == Hyphenate(Groups(s));
      }
    }
  }

  lemma StripEnds(lead: string, j: string, trail: string)
    requires (lead == "" || lead == "-") && (trail == "" || trail == "-")
    requires j != [] && j[0] != '-' && j[|j| - 1] != '-'
    ensures StripRight(StripLeft(lead + j + trail)) == j
  {
    assert lead == "-" ==> (lead + j + trail)[1..] == j + trail;
    assert lead == "" ==> lead + j + trail == j + trail;
    assert StripLeft(j + trail) == j + trail;
    assert trail == "-" ==> (j + trail)[..|j + trail| - 1] == j;
    assert trail == "" ==> j + trail == j;
    assert StripRight(j) == j;
  }

  /** What a slug keeps of a name: exactly the maximal runs of letters and digits of the lower-cased name,
      in order, joined by hyphens; and a random token only if there is none. */
  lemma SlugIsGroups(value: string, lower: string -> string, token: string)
    ensures var groups := Groups(lower(value));
            Slugify(value, lower, token) == if groups == [] then token else Hyphenate(groups)
  {
    var s := lower(value);
    CollapseJoinsGroups(s, false);
    GroupsAreKept(s);
    var j := Hyphenate(Groups(s));
    if Groups(s) == [] {
      assert StripLeft("-") == "" by { assert "-"[1..] == ""; }
      assert Collapse(s, false) == "" || Collapse(s, false) == "-";
    } else {
      StripEnds(Lead(s, false), j, Trail(s));
    }
  }

  // ---------------------------------------------------------------- numbered candidates

  function Digit(d: nat): char
    requires d < 10
  {
    ('0' as int + d) as char
  }

  function Decimal(n: nat): string {
    if n < 10 then [Digit(n)] else Decimal(n / 10) + [Digit(n % 10)]
  }

  function Parse(s: string): int {
    if s == [] then 0 else 10 * Parse(s[..|s| - 1]) + (s[|s| - 1] as int - '0' as int)
  }

  lemma {:induction false} DecimalParses(n: nat)
    ensures Parse(Decimal(n)) == n && Decimal(n) != []
    ensures n > 0 ==> Decimal(n)[0] != '0'
    ensures forall i :: 0 <= i < |Decimal(n)| ==> '0' <= Decimal(n)[i] <= '9'
  {
    if n >= 10 {
      DecimalParses(n / 10);
      assert Decimal(n)[..|Decimal(n)| - 1] == Decimal(n / 10);
    } else {
      assert Parse([Digit(n)]) == 10 * Parse([Digit(n)][..0]) + n;
    }
  }

  function Suffixed(slug: string, n: nat): string {
    slug + "-" + Decimal(n)
  }

  lemma SuffixedInjective(slug: string, m: nat, n: nat)
    requires Suffixed(slug, m) == Suffixed(slug, n)
    ensures m == n
  {
    DecimalParses(m);
    DecimalParses(n);
    assert Suffixed(slug, m)[|slug| + 1..] == Decimal(m);
    assert Suffixed(slug, n)[|slug| + 1..] == Decimal(n);
  }

  lemma SuffixedIsSlug(slug: string, n: nat)
    requires IsSlug(slug)
    ensures IsSlug(Suffixed(slug, n))
  {
    DecimalParses(n);
  }

  /** The search ends for every finite set of taken slugs, with a free slug: the base itself, or
      else the base with the least free number from 2 up. */
  method UniqueOrgSlug(name: string, lower: string -> string, token: string, taken: set<string>)
    returns (candidate: string)
    requires IsToken(token)
    ensures candidate !in taken && IsSlug(candidate)
    ensures var slug := Slugify(name, lower, token);
            if slug !in taken then candidate == slug
            else exists n :: n >= 2 && candidate == Suffixed(slug, n)
                             && forall m :: 2 <= m < n ==> Suffixed(slug, m) in taken
  {
    var slug := Slugify(name, lower, token);
    SlugifyMakesSlugs(name, lower, token);
    candidate := slug;
    var suffix := 1;
    ghost var untried := taken;
    while candidate in taken
      invariant suffix >= 1 && IsSlug(candidate)
      invariant suffix == 1 ==> candidate == slug && untried == taken
      invariant suffix > 1 ==> slug in taken && candidate == Suffixed(slug, suffix)
      invariant forall m :: 2 <= m < suffix ==> Suffixed(slug, m) in taken
      invariant forall m :: m >= suffix && m >= 2 && Suffixed(slug, m) in taken ==> Suffixed(slug, m) in untried
      decreases |untried|, if suffix == 1 then 1 else 0
    {
      if suffix > 1 {
        untried := untried - {candidate};
        forall m | m > suffix ensures Suffixed(slug, m) != candidate {
          if Suffixed(slug, m) == candidate { SuffixedInjective(slug, m, suffix); }
        }
      }
      suffix := suffix + 1;
      candidate := Suffixed(slug, suffix);
      SuffixedIsSlug(slug, suffix);
    }
  }
}
