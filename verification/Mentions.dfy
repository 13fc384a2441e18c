/** Mentions in a comment: which e-mail addresses it names, and who is told
    (backend/app/core/mentions.py, backend/app/services/comment_service.py:19-45). */
module Mentions {
  import opened Ids

  // ---------------------------------------------------------------- the pattern

  datatype Alphabet = Local | Host | Tail

  datatype Item = Lit(c: char) | Plus(alphabet: Alphabet)

  /** `word` says which characters \w matches; it covers neither '@' nor '.'. */
  type Word = char -> bool

  ghost predicate IsWord(word: Word) {
    !word('@') && !word('.')
  }

  predicate In(word: Word, alphabet: Alphabet, c: char) {
    match alphabet
    case Local => word(c) || c == '.' || c == '+' || c == '-'
    case Host => word(c) || c == '-'
    case Tail => word(c) || c == '.' || c == '-'
  }

  /** @([\w.+-]+@[\w-]+\.[\w.-]+) */
  const PATTERN: seq<Item> := [Lit('@'), Plus(Local), Lit('@'), Plus(Host), Lit('.'), Plus(Tail)]

  /** What it is for `items` to match s[i..j], with no mention of how a match is looked for. */
  ghost predicate Matches(word: Word, s: string, i: nat, items: seq<Item>, j: nat)
    decreases |items|
  {
    if items == [] then i == j
    else match items[0]
         case Lit(c) => i < |s| && s[i] == c && Matches(word, s, i + 1, items[1..], j)
         case Plus(alphabet) =>
           exists k :: i < k <= |s| && (forall m :: i <= m < k ==> In(word, alphabet, s[m]))
                       && Matches(word, s, k, items[1..], j)
  }

  function RunEnd(word: Word, s: string, i: nat, alphabet: Alphabet): (k: nat)
    requires i <= |s|
    ensures i <= k <= |s| && forall m :: i <= m < k ==> In(word, alphabet, s[m])
    ensures k == |s| || !In(word, alphabet, s[k])
    decreases |s| - i
  {
    if i < |s| && In(word, alphabet, s[i]) then RunEnd(word, s, i + 1, alphabet) else i
  }

  /** The regular expression engine: try each repetition at its longest, and give back one
      character at a time when the rest fails. */
  function Backtrack(word: Word, s: string, i: nat, items: seq<Item>): Option<nat>
    requires i <= |s|
    decreases |items|, 0
  {
    if items == [] then Some(i)
    else match items[0]
         case Lit(c) => if i < |s| && s[i] == c then Backtrack(word, s, i + 1, items[1..]) else None
         case Plus(alphabet) => GiveBack(word, s, i, RunEnd(word, s, i, alphabet), items)
  }

  function GiveBack(word: Word, s: string, i: nat, k: nat, items: seq<Item>): Option<nat>
    requires items != [] && i <= k <= |s|
    decreases |items| - 1, k + 1
  {
    if k == i then None
    else
      var r := Backtrack(word, s, k, items[1..]);
      if r.Some? then r else GiveBack(word, s, i, k - 1, items)
  }

  /** One pass, never giving anything back. */
  function Scan(word: Word, s: string, i: nat, items: seq<Item>): Option<nat>
    requires i <= |s|
    decreases |items|
  {
    if items == [] then Some(i)
    else match items[0]
         case Lit(c) => if i < |s| && s[i] == c then Scan(word, s, i + 1, items[1..]) else None
         case Plus(alphabet) =>
           var k := RunEnd(word, s, i, alphabet);
           if k == i then None else Scan(word, s, k, items[1..])
  }

  /** Every repetition is last, or followed by a character it cannot itself consume. */
  ghost predicate Determined(word: Word, items: seq<Item>) {
    forall n :: 0 <= n < |items| - 1 && items[n].Plus? ==>
      items[n + 1].Lit? && !In(word, items[n].alphabet, items[n + 1].c)
  }

  lemma {:induction false} EngineIsSound(word: Word, s: string, i: nat, items: seq<Item>, j: nat)
    requires i <= |s| && Backtrack(word, s, i, items) == Some(j)
    ensures Matches(word, s, i, items, j)
    decreases |items|, 0
  {
    if items != [] {
      match items[0]
      case Lit(c) => EngineIsSound(word, s, i + 1, items[1..], j);
      case Plus(alphabet) => GiveBackIsSound(word, s, i, RunEnd(word, s, i, alphabet), items, j);
    }
  }

  lemma {:induction false} GiveBackIsSound(word: Word, s: string, i: nat, k: nat, items: seq<Item>, j: nat)
    requires items != [] && items[0].Plus? && i <= k <= |s|
    requires forall m :: i <= m < k ==> In(word, items[0].alphabet, s[m])
    requires GiveBack(word, s, i, k, items) == Some(j)
    ensures Matches(word, s, i, items, j)
    decreases |items| - 1, k + 1
  {
    if Backtrack(word, s, k, items[1..]).Some? {
      EngineIsSound(word, s, k, items[1..], j);
    } else {
      GiveBackIsSound(word, s, i, k - 1, items, j);
    }
  }

  lemma {:induction false} EngineIsComplete(word: Word, s: string, i: nat, items: seq<Item>, j: nat)
    requires i <= |s| && Matches(word, s, i, items, j)
    ensures Backtrack(word, s, i, items).Some?
    decreases |items|, 0
  {
    if items != [] {
      match items[0]
      case Lit(c) => EngineIsComplete(word, s, i + 1, items[1..], j);
      case Plus(alphabet) =>
        var k :| i < k <= |s| && (forall m :: i <= m < k ==> In(word, alphabet, s[m]))
                 && Matches(word, s, k, items[1..], j);
        EngineIsComplete(word, s, k, items[1..], j);
        var end := RunEnd(word, s, i, alphabet);
        assert k <= end;
        GiveBackReaches(word, s, i, end, k, items);
    }
  }

  lemma {:induction false} GiveBackReaches(word: Word, s: string, i: nat, end: nat, k: nat, items: seq<Item>)
    requires items != [] && i < k <= end <= |s| && Backtrack(word, s, k, items[1..]).Some?
    ensures GiveBack(word, s, i, end, items).Some?
    decreases end
  {
    if k < end { GiveBackReaches(word, s, i, end - 1, k, items); }
  }

  /** A match whose next item the repetition cannot consume goes through the end of the run. */
  lemma RunIsWhole(word: Word, s: string, i: nat, items: seq<Item>, j: nat)
    requires |items| > 1 && items[0].Plus? && items[1].Lit? && !In(word, items[0].alphabet, items[1].c)
    requires i <= |s| && Matches(word, s, i, items, j)
    ensures Matches(word, s, RunEnd(word, s, i, items[0].alphabet), items[1..], j)
  {
    var k :| i < k <= |s| && (forall m :: i <= m < k ==> In(word, items[0].alphabet, s[m]))
             && Matches(word, s, k, items[1..], j);
    assert s[k] == items[1..][0].c;
  }

  /** For a determined pattern the single pass finds what the engine finds, and any match there
      is ends no later. */
  lemma {:induction false} NoBacktracking(word: Word, s: string, i: nat, items: seq<Item>)
    requires i <= |s| && Determined(word, items)
    ensures Scan(word, s, i, items) == Backtrack(word, s, i, items)
    ensures forall j: nat :: Matches(word, s, i, items, j) ==>
              Scan(word, s, i, items).Some? && j <= Scan(word, s, i, items).value
    decreases |items|
  {
    if items != [] {
      var rest := items[1..];
      assert forall n :: 0 <= n < |rest| ==> rest[n] == items[n + 1];
      match items[0]
      case Lit(c) => if i < |s| { NoBacktracking(word, s, i + 1, rest); }
      case Plus(alphabet) =>
        var end := RunEnd(word, s, i, alphabet);
        NoBacktracking(word, s, end, rest);
        if rest != [] {
          GivingBackFails(word, s, i, end, items);
          forall j: nat | Matches(word, s, i, items, j) ensures Matches(word, s, end, rest, j) {
            RunIsWhole(word, s, i, items, j);
          }
        }
    }
  }

  /** Shorter repetitions cannot help: the next character is one the repetition consumes. */
  lemma {:induction false} GivingBackFails(word: Word, s: string, i: nat, k: nat, items: seq<Item>)
    requires |items| > 1 && items[0].Plus? && items[1].Lit? && !In(word, items[0].alphabet, items[1].c)
    requires i <= k <= |s| && forall m :: i <= m < k ==> In(word, items[0].alphabet, s[m])
    ensures GiveBack(word, s, i, k, items) == if k == i then None else Backtrack(word, s, k, items[1..])
    decreases k
  {
    if k > i {
      GivingBackFails(word, s, i, k - 1, items);
      if k - 1 > i { assert Backtrack(word, s, k - 1, items[1..]) == None; }
    }
  }

  // ---------------------------------------------------------------- all mentions of a text

  datatype Span = Span(start: nat, end: nat)

  /** re.finditer: from each position on, the first place where the engine matches. */
  function FindAll(word: Word, s: string, items: seq<Item>, from: nat): (spans: seq<Span>)
    requires from <= |s| && items != []
    ensures forall n :: 0 <= n < |spans| ==> from <= spans[n].start < spans[n].end <= |s|
    decreases |s| - from
  {
    if from == |s| then []
    else
      var r := Backtrack(word, s, from, items);
      if r.None? then FindAll(word, s, items, from + 1)
      else
        EndInRange(word, s, from, items, r.value);
        [Span(from, r.value)] + FindAll(word, s, items, r.value)
  }

  lemma {:induction false} EndInRange(word: Word, s: string, i: nat, items: seq<Item>, j: nat)
    requires i <= |s| && Backtrack(word, s, i, items) == Some(j)
    ensures i <= j <= |s| && (items != [] ==> i < j)
  {
    EngineIsSound(word, s, i, items, j);
    MatchInRange(word, s, i, items, j);
  }

  lemma {:induction false} MatchInRange(word: Word, s: string, i: nat, items: seq<Item>, j: nat)
    requires i <= |s| && Matches(word, s, i, items, j)
    ensures i <= j <= |s| && (items != [] ==> i < j)
    decreases |items|
  {
    if items != [] {
      match items[0]
      case Lit(c) => MatchInRange(word, s, i + 1, items[1..], j);
      case Plus(alphabet) =>
        var k :| i < k <= |s| && (forall m :: i <= m < k ==> In(word, alphabet, s[m]))
                 && Matches(word, s, k, items[1..], j);
        MatchInRange(word, s, k, items[1..], j);
    }
  }

  ghost predicate InOrder(spans: seq<Span>) {
    forall m, n :: 0 <= m < n < |spans| ==> spans[m].end <= spans[n].start
  }

  lemma {:induction false} FoundInOrder(word: Word, s: string, items: seq<Item>, from: nat)
    requires from <= |s| && items != []
    ensures InOrder(FindAll(word, s, items, from))
    decreases |s| - from
  {
    if from < |s| {
      var r := Backtrack(word, s, from, items);
      if r.None? {
        FoundInOrder(word, s, items, from + 1);
        assert FindAll(word, s, items, from) == FindAll(word, s, items, from + 1);
      } else {
        EndInRange(word, s, from, items, r.value);
        FoundInOrder(word, s, items, r.value);
        assert FindAll(word, s, items, from) == [Span(from, r.value)] + FindAll(word, s, items, r.value);
      }
    }
  }

  /** The spans found are engine matches, and wherever the engine
      matches at all is the start or the inside of one of them. */
  ghost predicate Tiles(word: Word, s: string, items: seq<Item>, from: nat, spans: seq<Span>) {
    && (forall n :: 0 <= n < |spans| ==>
          from <= spans[n].start <= |s| && Backtrack(word, s, spans[n].start, items) == Some(spans[n].end))
    && (forall i: nat {:trigger Covered(spans, i)} ::
          from <= i < |s| && Backtrack(word, s, i, items).Some? ==> Covered(spans, i))
  }

  ghost predicate Covered(spans: seq<Span>, i: nat) {
    exists n :: 0 <= n < |spans| && spans[n].start <= i < spans[n].end
  }

  lemma CoveredCons(first: Span, rest: seq<Span>, i: nat)
    requires first.start <= i < first.end || Covered(rest, i)
    ensures Covered([first] + rest, i)
  {
    var spans := [first] + rest;
    assert spans[0] == first;
    if Covered(rest, i) {
      var n :| 0 <= n < |rest| && rest[n].start <= i < rest[n].end;
      assert spans[n + 1] == rest[n];
    }
  }

  lemma TilesCons(word: Word, s: string, items: seq<Item>, from: nat, end: nat, rest: seq<Span>)
    requires from < end <= |s| && Backtrack(word, s, from, items) == Some(end)
    requires Tiles(word, s, items, end, rest)
    ensures Tiles(word, s, items, from, [Span(from, end)] + rest)
  {
    var spans := [Span(from, end)] + rest;
    forall i: nat | from <= i < |s| && Backtrack(word, s, i, items).Some? ensures Covered(spans, i) {
      assert i < end || Covered(rest, i);
      CoveredCons(Span(from, end), rest, i);
    }
    forall n | 0 <= n < |spans|
      ensures from <= spans[n].start <= |s| && Backtrack(word, s, spans[n].start, items) == Some(spans[n].end)
    {
      if n > 0 { assert spans[n] == rest[n - 1]; }
    }
  }

  lemma TilesSkip(word: Word, s: string, items: seq<Item>, from: nat, spans: seq<Span>)
    requires from < |s| && Backtrack(word, s, from, items).None? && Tiles(word, s, items, from + 1, spans)
    ensures Tiles(word, s, items, from, spans)
  {
  }

  lemma {:induction false} FoundTile(word: Word, s: string, items: seq<Item>, from: nat)
    requires from <= |s| && items != []
    ensures Tiles(word, s, items, from, FindAll(word, s, items, from))
    decreases |s| - from
  {
    if from < |s| {
      var r := Backtrack(word, s, from, items);
      if r.None? {
        FoundTile(word, s, items, from + 1);
        TilesSkip(word, s, items, from, FindAll(word, s, items, from + 1));
      } else {
        EndInRange(word, s, from, items, r.value);
        FoundTile(word, s, items, r.value);
        TilesCons(word, s, items, from, r.value, FindAll(word, s, items, r.value));
      }
    }
  }

  lemma MentionIsDetermined(word: Word)
    requires IsWord(word)
    ensures Determined(word, PATTERN)
  {
  }

  /** The pattern of the program finds exactly the leftmost longest mentions, stated without any
      search: each span is a longest match at its start, they do not overlap, and no place where
      the pattern matches is missed. */
  lemma MentionsAreLeftmostLongest(word: Word, s: string, i: nat, j: nat)
    requires IsWord(word) && i <= |s|
    ensures var spans := FindAll(word, s, PATTERN, 0);
            && (Matches(word, s, i, PATTERN, j) ==> Covered(spans, i))
            && (Span(i, j) in spans ==> Matches(word, s, i, PATTERN, j))
            && (forall longer: nat :: Span(i, j) in spans && Matches(word, s, i, PATTERN, longer) ==> longer <= j)
            && InOrder(spans)
  {
    MentionIsDetermined(word);
    FoundTile(word, s, PATTERN, 0);
    FoundInOrder(word, s, PATTERN, 0);
    NoBacktracking(word, s, i, PATTERN);
    if Matches(word, s, i, PATTERN, j) {
      EngineIsComplete(word, s, i, PATTERN, j);
      MatchInRange(word, s, i, PATTERN, j);
    }
    if Span(i, j) in FindAll(word, s, PATTERN, 0) { EngineIsSound(word, s, i, PATTERN, j); }
  }

  /** group(1): the match without its leading '@'. */
  function Captures(s: string, spans: seq<Span>): seq<string>
    requires forall n :: 0 <= n < |spans| ==> spans[n].start < spans[n].end <= |s|
  {
    seq(|spans|, n requires 0 <= n < |spans| => s[spans[n].start + 1..spans[n].end])
  }

  // ---------------------------------------------------------------- first-seen order

  ghost function FirstAt(xs: seq<string>, x: string): nat
    requires x in xs
    ensures FirstAt(xs, x) < |xs| && xs[FirstAt(xs, x)] == x
    ensures forall m :: 0 <= m < FirstAt(xs, x) ==> xs[m] != x
  {
    if xs[0] == x then 0 else 1 + FirstAt(xs[1..], x)
  }

  /** The distinct values of xs, in the order in which each is first seen. */
  ghost predicate FirstSeen(xs: seq<string>, r: seq<string>) {
    && (forall x {:trigger x in r} :: x in r <==> x in xs)
    && (forall i, j {:trigger r[i], r[j]} :: 0 <= i < j < |r| ==>
          r[i] in xs && r[j] in xs && FirstAt(xs, r[i]) < FirstAt(xs, r[j]))
  }

  lemma FirstAtPrefix(xs: seq<string>, n: nat, x: string)
    requires n <= |xs| && x in xs[..n]
    ensures x in xs && FirstAt(xs, x) == FirstAt(xs[..n], x)
  {
    var i := FirstAt(xs[..n], x);
    assert xs[i] == x && forall m :: 0 <= m < i ==> xs[m] == xs[..n][m];
  }

  lemma FirstAtLast(xs: seq<string>, n: nat)
    requires n < |xs| && xs[n] !in xs[..n]
    ensures FirstAt(xs[..n + 1], xs[n]) == n
  {
    var more := xs[..n + 1];
    assert more[n] == xs[n];
    var i := FirstAt(more, xs[n]);
  }

  lemma MembersNext(xs: seq<string>, n: nat, r: seq<string>, x: string)
    requires n < |xs| && (x in r <==> x in xs[..n])
    ensures x in (if xs[n] in r then r else r + [xs[n]]) <==> x in xs[..n + 1] || (x == xs[n] && xs[n] in r)
  {
    assert xs[..n + 1] == xs[..n] + [xs[n]];
  }

  lemma OrderNext(xs: seq<string>, n: nat, x: string, y: string)
    requires n < |xs| && x in xs[..n]
    requires (y == xs[n] && y !in xs[..n]) || (y in xs[..n] && FirstAt(xs[..n], x) < FirstAt(xs[..n], y))
    ensures x in xs[..n + 1] && y in xs[..n + 1] && FirstAt(xs[..n + 1], x) < FirstAt(xs[..n + 1], y)
  {
    var more := xs[..n + 1];
    assert more[..n] == xs[..n] && more[n] == xs[n];
    FirstAtPrefix(more, n, x);
    if y in xs[..n] { FirstAtPrefix(more, n, y); } else { FirstAtLast(xs, n); }
  }

  lemma FirstSeenNext(xs: seq<string>, n: nat, r: seq<string>)
    requires n < |xs| && FirstSeen(xs[..n], r)
    ensures FirstSeen(xs[..n + 1], if xs[n] in r then r else r + [xs[n]])
  {
    var more, longer := xs[..n + 1], if xs[n] in r then r else r + [xs[n]];
    forall x ensures x in longer <==> x in more {
      MembersNext(xs, n, r, x);
      assert more[n] == xs[n];
    }
    forall i, j | 0 <= i < j < |longer|
      ensures longer[i] in more && longer[j] in more && FirstAt(more, longer[i]) < FirstAt(more, longer[j])
    {
      assert r[i] in r;
      if j < |r| { assert r[j] in r; }
      OrderNext(xs, n, longer[i], longer[j]);
    }
  }

  /** All matches in one linear pass that never gives a character back. */
  method ScanAll(word: Word, s: string, items: seq<Item>) returns (spans: seq<Span>)
    requires items != [] && Determined(word, items)
    ensures spans == FindAll(word, s, items, 0)
  {
    spans := [];
    var pos := 0;
    while pos < |s|
      invariant pos <= |s|
      invariant spans + FindAll(word, s, items, pos) == FindAll(word, s, items, 0)
      decreases |s| - pos
    {
      var r := Scan(word, s, pos, items);
      NoBacktracking(word, s, pos, items);
      if r.None? {
        pos := pos + 1;
      } else {
        EndInRange(word, s, pos, items, r.value);
        spans := spans + [Span(pos, r.value)];
        pos := r.value;
      }
    }
  }

  /** A dictionary filled with setdefault: each value stays where it was first seen. */
  method KeepFirst(xs: seq<string>) returns (seen: seq<string>)
    ensures FirstSeen(xs, seen)
  {
    seen := [];
    for n := 0 to |xs|
      invariant FirstSeen(xs[..n], seen)
    {
      FirstSeenNext(xs, n, seen);
      seen := if xs[n] in seen then seen else seen + [xs[n]];
    }
    assert xs[..|xs|] == xs;
  }

  method ExtractMentionedEmails(word: Word, body: string) returns (emails: seq<string>)
    requires IsWord(word)
    ensures FirstSeen(Captures(body, FindAll(word, body, PATTERN, 0)), emails)
    ensures forall x {:trigger x in emails} :: x in emails <==> Mentioned(word, body, x)
  {
    forall x ensures x in Captures(body, FindAll(word, body, PATTERN, 0)) <==> Mentioned(word, body, x) {
      MentionedIffWritten(word, body, x);
    }
    MentionIsDetermined(word);
    var spans := ScanAll(word, body, PATTERN);
    emails := KeepFirst(Captures(body, spans));
  }

  // ---------------------------------------------------------------- who is notified

  /** Each account has one address and each address one account. */
  ghost predicate OneAddressEach(accounts: map<string, UserId>) {
    forall x, y :: x in accounts && y in accounts && accounts[x] == accounts[y] ==> x == y
  }

  /** Every mentioned project member but the author is notified, exactly once; nobody else is. */
  method NotifyMentions(word: Word, body: string, accounts: map<string, UserId>, members: set<UserId>, author: UserId)
    returns (notified: seq<UserId>)
    requires IsWord(word) && OneAddressEach(accounts)
    ensures NoDuplicates(notified)
    ensures forall u :: u in notified <==>
              && u != author && u in members
              && exists x :: x in accounts && accounts[x] == u && Mentioned(word, body, x)
  {
    var emails := ExtractMentionedEmails(word, body);
    notified := [];
    for i := 0 to |emails|
      invariant NoDuplicates(notified)
      invariant forall u :: u in notified <==>
                  u != author && u in members && exists x :: x in emails[..i] && x in accounts && accounts[x] == u
    {
      assert emails[..i + 1] == emails[..i] + [emails[i]];
      assert emails[i] !in emails[..i];
      if emails[i] !in accounts || accounts[emails[i]] == author { continue; }
      if accounts[emails[i]] !in members { continue; }
      notified := notified + [accounts[emails[i]]];
    }
    assert emails[..|emails|] == emails;
  }

  // ---------------------------------------------------------------- exactly which address is read

  lemma {:induction false} OneMore(word: Word, s: string, i: nat, items: seq<Item>, j: nat)
    requires i <= |s| && items != [] && items[|items| - 1] == Plus(Tail)
    requires Matches(word, s, i, items, j) && j < |s| && In(word, Tail, s[j])
    ensures Matches(word, s, i, items, j + 1)
    decreases |items|
  {
    var rest := items[1..];
    match items[0]
    case Lit(c) => OneMore(word, s, i + 1, rest, j);
    case Plus(alphabet) =>
      var k :| i < k <= |s| && (forall m :: i <= m < k ==> In(word, alphabet, s[m])) && Matches(word, s, k, rest, j);
      if rest != [] {
        OneMore(word, s, k, rest, j);
      } else {
        assert forall m :: i <= m < k + 1 ==> In(word, alphabet, s[m]);
        assert Matches(word, s, k + 1, rest, j + 1);
      }
  }

  /** What matters here about the pattern: it begins with '@', its repetitions cannot consume what
      follows them, and it ends in a repetition of address characters. */
  ghost predicate ReadsAddresses(word: Word, items: seq<Item>) {
    items != [] && items[0] == Lit('@') && items[|items| - 1] == Plus(Tail) && Determined(word, items)
  }

  lemma PatternReadsAddresses(word: Word)
    requires IsWord(word)
    ensures ReadsAddresses(word, PATTERN)
  {
    MentionIsDetermined(word);
  }

  ghost predicate EndsAt(word: Word, s: string, j: nat) {
    j == |s| || (j < |s| && !In(word, Tail, s[j]))
  }

  /** The engine stops at j exactly if the pattern matches up to there and no character follows that
      could still belong to an address. */
  lemma MatchEndsWhere(word: Word, s: string, i: nat, items: seq<Item>, j: nat)
    requires ReadsAddresses(word, items) && i <= |s|
    ensures Backtrack(word, s, i, items) == Some(j) <==> Matches(word, s, i, items, j) && EndsAt(word, s, j)
  {
    NoBacktracking(word, s, i, items);
    if Matches(word, s, i, items, j) && EndsAt(word, s, j) {
      EngineIsComplete(word, s, i, items, j);
      var k := Backtrack(word, s, i, items).value;
      EngineIsSound(word, s, i, items, k);
      MatchInRange(word, s, i, items, k);
      if j < k { TailThrough(word, s, i, items, j, k); }
    }
    if Backtrack(word, s, i, items) == Some(j) {
      EndInRange(word, s, i, items, j);
      EngineIsSound(word, s, i, items, j);
      if j < |s| && In(word, Tail, s[j]) { OneMore(word, s, i, items, j); }
    }
  }

  /** For the program's own pattern. */
  lemma MentionEndsWhere(word: Word, s: string, i: nat, j: nat)
    requires IsWord(word) && i <= |s|
    ensures Backtrack(word, s, i, PATTERN) == Some(j)
       <==> Matches(word, s, i, PATTERN, j) && (j == |s| || (j < |s| && !In(word, Tail, s[j])))
  {
    PatternReadsAddresses(word);
    MatchEndsWhere(word, s, i, PATTERN, j);
  }

  /** Of two matches of a determined pattern from one place, the longer goes on with the last
      repetition's characters. */
  lemma {:induction false} TailThrough(word: Word, s: string, i: nat, items: seq<Item>, j: nat, k: nat)
    requires i <= |s| && items != [] && items[|items| - 1] == Plus(Tail) && Determined(word, items)
    requires Matches(word, s, i, items, j) && Matches(word, s, i, items, k) && j < k && j < |s|
    ensures In(word, Tail, s[j])
    decreases |items|
  {
    var rest := items[1..];
    if rest == [] {
      MatchInRange(word, s, i, items, j);
    } else {
      assert forall n :: 0 <= n < |rest| ==> rest[n] == items[n + 1];
      match items[0]
      case Lit(c) => TailThrough(word, s, i + 1, rest, j, k);
      case Plus(alphabet) =>
        var end := RunEnd(word, s, i, alphabet);
        RunIsWhole(word, s, i, items, j);
        RunIsWhole(word, s, i, items, k);
        TailThrough(word, s, end, rest, j, k);
    }
  }

  /** A match depends only on the text it covers. */
  lemma {:induction false} MatchIsLocal(word: Word, s: string, i: nat, items: seq<Item>, j: nat, t: string, d: int)
    requires 0 <= i + d && j <= |s| && j + d <= |t| && forall m :: i <= m < j ==> s[m] == t[m + d]
    requires Matches(word, s, i, items, j) && i <= |s|
    ensures j + d >= 0 && Matches(word, t, i + d, items, j + d)
    decreases |items|
  {
    if items != [] {
      var rest := items[1..];
      MatchInRange(word, s, i, items, j);
      match items[0]
      case Lit(c) =>
        MatchInRange(word, s, i + 1, rest, j);
        MatchIsLocal(word, s, i + 1, rest, j, t, d);
      case Plus(alphabet) =>
        var k :| i < k <= |s| && (forall m :: i <= m < k ==> In(word, alphabet, s[m])) && Matches(word, s, k, rest, j);
        MatchInRange(word, s, k, rest, j);
        MatchIsLocal(word, s, k, rest, j, t, d);
        forall m | i + d <= m < k + d ensures In(word, alphabet, t[m]) { assert t[m] == s[m - d]; }
    }
  }

  /** Text that can stand after '@' as a whole address. */
  ghost predicate IsAddress(word: Word, items: seq<Item>, x: string) {
    Matches(word, "@" + x, 0, items, |x| + 1)
  }

  ghost predicate StandsAt(body: string, i: nat, x: string) {
    i + 1 + |x| <= |body| && body[i] == '@' && body[i + 1..i + 1 + |x|] == x
  }

  /** `x` is written at place i: '@', the address, and then nothing that could belong to it. */
  ghost predicate WrittenAt(word: Word, items: seq<Item>, body: string, i: nat, x: string) {
    StandsAt(body, i, x) && IsAddress(word, items, x) && EndsAt(word, body, i + 1 + |x|)
  }

  /** Place i lies inside a mention that started earlier. */
  ghost predicate InsideEarlier(spans: seq<Span>, i: nat) {
    exists n :: 0 <= n < |spans| && spans[n].start < i < spans[n].end
  }

  lemma SameText(body: string, i: nat, x: string, m: nat)
    requires StandsAt(body, i, x) && m <= |x|
    ensures body[i + m] == ("@" + x)[m]
  {
    if m > 0 { assert body[i + 1..i + 1 + |x|][m - 1] == x[m - 1]; }
  }

  /** Whether an address matches where it stands does not depend on the text around it. */
  lemma AddressIsLocal(word: Word, items: seq<Item>, body: string, i: nat, x: string)
    requires StandsAt(body, i, x)
    ensures Matches(word, body, i, items, i + 1 + |x|) <==> IsAddress(word, items, x)
  {
    forall m | 0 <= m < |x| + 1 ensures body[m + i] == ("@" + x)[m] { SameText(body, i, x, m); }
    if IsAddress(word, items, x) { MatchIsLocal(word, "@" + x, 0, items, |x| + 1, body, i); }
    if Matches(word, body, i, items, i + 1 + |x|) {
      forall m | i <= m < i + 1 + |x| ensures body[m] == ("@" + x)[m - i] { SameText(body, i, x, m - i); }
      MatchIsLocal(word, body, i, items, i + 1 + |x|, "@" + x, 0 - i);
    }
  }

  lemma WrittenIffRead(word: Word, items: seq<Item>, body: string, i: nat, x: string)
    requires ReadsAddresses(word, items) && i + 1 + |x| <= |body| && body[i + 1..i + 1 + |x|] == x
    ensures WrittenAt(word, items, body, i, x) <==> Backtrack(word, body, i, items) == Some(i + 1 + |x|)
  {
    MatchEndsWhere(word, body, i, items, i + 1 + |x|);
    if body[i] == '@' { AddressIsLocal(word, items, body, i, x); }
  }

  lemma CapturedIsWritten(word: Word, items: seq<Item>, body: string, n: nat)
    requires ReadsAddresses(word, items) && n < |FindAll(word, body, items, 0)|
    ensures var spans := FindAll(word, body, items, 0);
            WrittenAt(word, items, body, spans[n].start, Captures(body, spans)[n])
                && !InsideEarlier(spans, spans[n].start)
  {
    var spans := FindAll(word, body, items, 0);
    FoundTile(word, body, items, 0);
    FoundInOrder(word, body, items, 0);
    WrittenIffRead(word, items, body, spans[n].start, Captures(body, spans)[n]);
  }

  lemma WrittenIsCaptured(word: Word, items: seq<Item>, body: string, i: nat, x: string)
    requires ReadsAddresses(word, items) && WrittenAt(word, items, body, i, x)
    requires !InsideEarlier(FindAll(word, body, items, 0), i)
    ensures x in Captures(body, FindAll(word, body, items, 0))
  {
    var spans := FindAll(word, body, items, 0);
    FoundTile(word, body, items, 0);
    WrittenIffRead(word, items, body, i, x);
    assert Covered(spans, i);
    var n :| 0 <= n < |spans| && spans[n].start <= i < spans[n].end;
    assert spans[n].start == i && spans[n].end == i + 1 + |x|;
    assert Captures(body, spans)[n] == x;
  }

  /** An address is among those extracted if and only if it is written somewhere, ending where no
      address character follows, and not inside a mention that started earlier. */
  lemma CapturedIffWritten(word: Word, items: seq<Item>, body: string, x: string)
    requires ReadsAddresses(word, items)
    ensures x in Captures(body, FindAll(word, body, items, 0)) <==>
            exists i :: WrittenAt(word, items, body, i, x) && !InsideEarlier(FindAll(word, body, items, 0), i)
  {
    var spans := FindAll(word, body, items, 0);
    if x in Captures(body, spans) {
      var n :| 0 <= n < |spans| && Captures(body, spans)[n] == x;
      CapturedIsWritten(word, items, body, n);
    }
    if i: nat :| WrittenAt(word, items, body, i, x) && !InsideEarlier(spans, i) {
      WrittenIsCaptured(word, items, body, i, x);
    }
  }

  /** At the start of a text an address is read exactly if it is followed by the end or by a
      character no address can go on with; a full stop is not one. */
  lemma ReadAtStartIff(word: Word, items: seq<Item>, x: string, rest: string)
    requires ReadsAddresses(word, items) && IsAddress(word, items, x)
    ensures Backtrack(word, "@" + x + rest, 0, items) == Some(|x| + 1)
       <==> rest == [] || (rest[0] != '.' && rest[0] != '-' && !word(rest[0]))
  {
    var body := "@" + x + rest;
    assert body[1..1 + |x|] == x;
    if rest != [] { assert body[1 + |x|] == rest[0]; }
    WrittenIffRead(word, items, body, 0, x);
  }

  // ---------------------------------------------------------------- addresses, character by character

  predicate LocalPart(word: Word, a: string) {
    a != [] && forall i :: 0 <= i < |a| ==> word(a[i]) || a[i] == '.' || a[i] == '+' || a[i] == '-'
  }

  predicate HostLabel(word: Word, h: string) {
    h != [] && forall i :: 0 <= i < |h| ==> word(h[i]) || h[i] == '-'
  }

  predicate DomainRest(word: Word, t: string) {
    t != [] && forall i :: 0 <= i < |t| ==> word(t[i]) || t[i] == '.' || t[i] == '-'
  }

  /** A local part, '@', a host label, '.', and the rest of the domain. */
  ghost predicate Spelled(word: Word, x: string) {
    exists a, h, t :: LocalPart(word, a) && HostLabel(word, h) && DomainRest(word, t) && x == a + "@" + h + "." + t
  }

  predicate IsMentionPattern(items: seq<Item>) {
    && |items| == 6 && items[0] == Lit('@') && items[1] == Plus(Local) && items[2] == Lit('@')
    && items[3] == Plus(Host) && items[4] == Lit('.') && items[5] == Plus(Tail)
  }

  lemma LitStep(word: Word, s: string, i: nat, items: seq<Item>, n: nat, c: char, j: nat)
    requires n < |items| && items[n] == Lit(c)
    ensures Matches(word, s, i, items[n..], j) <==> i < |s| && s[i] == c && Matches(word, s, i + 1, items[n + 1..], j)
  {
    assert items[n..][1..] == items[n + 1..];
  }

  lemma PlusStep(word: Word, s: string, i: nat, items: seq<Item>, n: nat, alphabet: Alphabet, k: nat, j: nat)
    requires n < |items| && items[n] == Plus(alphabet) && i < k <= |s| && Matches(word, s, k, items[n + 1..], j)
    requires forall m :: i <= m < k ==> In(word, alphabet, s[m])
    ensures Matches(word, s, i, items[n..], j)
  {
    assert items[n..][1..] == items[n + 1..];
  }

  lemma PlusInverse(word: Word, s: string, i: nat, items: seq<Item>, n: nat, alphabet: Alphabet, j: nat)
    returns (k: nat)
    requires n < |items| && items[n] == Plus(alphabet) && Matches(word, s, i, items[n..], j)
    ensures i < k <= |s| && Matches(word, s, k, items[n + 1..], j)
    ensures forall m :: i <= m < k ==> In(word, alphabet, s[m])
  {
    assert items[n..][1..] == items[n + 1..];
    k :| && i < k <= |s| && Matches(word, s, k, items[n..][1..], j)
         && forall m :: i <= m < k ==> In(word, alphabet, s[m]);
  }

  lemma SpelledMatches(word: Word, items: seq<Item>, s: string, p: nat, q: nat)
    requires IsMentionPattern(items) && 1 < p && p + 1 < q && q + 1 < |s|
    requires s[0] == '@' && s[p] == '@' && s[q] == '.'
    requires LocalPart(word, s[1..p]) && HostLabel(word, s[p + 1..q]) && DomainRest(word, s[q + 1..])
    ensures Matches(word, s, 0, items, |s|)
  {
    forall m | 1 <= m < p ensures In(word, Local, s[m]) { assert s[1..p][m - 1] == s[m]; }
    forall m | p + 1 <= m < q ensures In(word, Host, s[m]) { assert s[p + 1..q][m - p - 1] == s[m]; }
    forall m | q + 1 <= m < |s| ensures In(word, Tail, s[m]) { assert s[q + 1..][m - q - 1] == s[m]; }
    assert Matches(word, s, |s|, items[6..], |s|);
    PlusStep(word, s, q + 1, items, 5, Tail, |s|, |s|);
    LitStep(word, s, q, items, 4, '.', |s|);
    PlusStep(word, s, p + 1, items, 3, Host, q, |s|);
    LitStep(word, s, p, items, 2, '@', |s|);
    PlusStep(word, s, 1, items, 1, Local, p, |s|);
    LitStep(word, s, 0, items, 0, '@', |s|);
    assert items[0..] == items;
  }

  lemma MatchesSpelled(word: Word, items: seq<Item>, s: string) returns (p: nat, q: nat)
    requires IsMentionPattern(items) && Matches(word, s, 0, items, |s|)
    ensures 1 < p && p + 1 < q && q + 1 < |s| && s[0] == '@' && s[p] == '@' && s[q] == '.'
    ensures LocalPart(word, s[1..p]) && HostLabel(word, s[p + 1..q]) && DomainRest(word, s[q + 1..])
  {
    assert items[0..] == items;
    LitStep(word, s, 0, items, 0, '@', |s|);
    p := PlusInverse(word, s, 1, items, 1, Local, |s|);
    LitStep(word, s, p, items, 2, '@', |s|);
    q := PlusInverse(word, s, p + 1, items, 3, Host, |s|);
    LitStep(word, s, q, items, 4, '.', |s|);
    var r := PlusInverse(word, s, q + 1, items, 5, Tail, |s|);
    assert items[6..] == [];
    assert r == |s|;
  }

  /** What the pattern takes for an address, spelled out: a non-empty local part of word characters, '.',
      '+' and '-'; a non-empty label of word characters and '-'; a non-empty rest of word characters, '.'
      and '-'. */
  lemma AddressIsSpelled(word: Word, items: seq<Item>, x: string)
    requires IsMentionPattern(items)
    ensures IsAddress(word, items, x) <==> Spelled(word, x)
  {
    var s := "@" + x;
    if IsAddress(word, items, x) {
      var p, q := MatchesSpelled(word, items, s);
      assert x == s[1..p] + "@" + s[p + 1..q] + "." + s[q + 1..];
    }
    if Spelled(word, x) {
      var a, h, t :| LocalPart(word, a) && HostLabel(word, h) && DomainRest(word, t) && x == a + "@" + h + "." + t;
      var p, q := 1 + |a|, 2 + |a| + |h|;
      assert s[1..p] == a && s[p + 1..q] == h && s[q + 1..] == t;
      SpelledMatches(word, items, s, p, q);
    }
  }

  /** An address is mentioned: written after an '@', followed by nothing that could belong to it, and
      not inside a mention that started earlier. */
  ghost predicate Mentioned(word: Word, body: string, x: string) {
    exists i :: MentionedAt(word, body, i, x) && !InsideEarlier(FindAll(word, body, PATTERN, 0), i)
  }

  ghost predicate MentionedAt(word: Word, body: string, i: nat, x: string) {
    && StandsAt(body, i, x) && Spelled(word, x)
    && (i + 1 + |x| == |body|
        || (var next := body[i + 1 + |x|]; !word(next) && next != '.' && next != '-'))
  }

  lemma MentionedAtIffWritten(word: Word, items: seq<Item>, body: string, i: nat, x: string)
    requires IsMentionPattern(items)
    ensures MentionedAt(word, body, i, x) <==> WrittenAt(word, items, body, i, x)
  {
    AddressIsSpelled(word, items, x);
  }

  lemma CapturedIffSpelled(word: Word, items: seq<Item>, body: string, x: string)
    requires ReadsAddresses(word, items) && IsMentionPattern(items)
    ensures x in Captures(body, FindAll(word, body, items, 0)) <==>
            exists i :: MentionedAt(word, body, i, x) && !InsideEarlier(FindAll(word, body, items, 0), i)
  {
    CapturedIffWritten(word, items, body, x);
    forall i: nat ensures MentionedAt(word, body, i, x) <==> WrittenAt(word, items, body, i, x) {
      MentionedAtIffWritten(word, items, body, i, x);
    }
  }

  /** The addresses extracted from a text are exactly those mentioned in it. */
  lemma MentionedIffWritten(word: Word, body: string, x: string)
    requires IsWord(word)
    ensures x in Captures(body, FindAll(word, body, PATTERN, 0)) <==> Mentioned(word, body, x)
  {
    PatternReadsAddresses(word);
    CapturedIffSpelled(word, PATTERN, body, x);
  }

  // ---------------------------------------------------------------- a sentence that ends in a mention

  const ADDRESS := "a@b.c"

  /** "@a@b.c", and the same with a full stop, each as one match. */
  lemma SpelledOut(word: Word, items: seq<Item>, s: string)
    requires IsWord(word) && word('a') && word('b') && word('c') && IsMentionPattern(items)
    requires |s| >= 6 && s[..6] == "@a@b.c" && forall m :: 6 <= m < |s| ==> s[m] == '.'
    ensures Matches(word, s, 0, items, |s|)
  {
    assert forall m :: 0 <= m < 6 ==> s[m] == s[..6][m];
    SpelledMatches(word, items, s, 2, 4);
  }

  lemma OnlyMention(word: Word, items: seq<Item>, s: string, x: string)
    requires ReadsAddresses(word, items) && s == "@" + x && IsAddress(word, items, x)
    ensures Captures(s, FindAll(word, s, items, 0)) == [x]
  {
    assert s[1..1 + |x|] == x;
    WrittenIffRead(word, items, s, 0, x);
    assert FindAll(word, s, items, 0) == [Span(0, |s|)] + FindAll(word, s, items, |s|);
    assert s[1..|s|] == x;
  }

  lemma ExampleAddresses(word: Word, items: seq<Item>)
    requires IsWord(word) && word('a') && word('b') && word('c') && items == PATTERN
    ensures Captures("@a@b.c", FindAll(word, "@a@b.c", items, 0)) == [ADDRESS]
    ensures Captures("@a@b.c.", FindAll(word, "@a@b.c.", items, 0)) == [ADDRESS + "."]
  {
    PatternReadsAddresses(word);
    SpelledOut(word, items, "@" + ADDRESS);
    OnlyMention(word, items, "@a@b.c", ADDRESS);
    assert ("@" + (ADDRESS + "."))[..6] == "@a@b.c";
    SpelledOut(word, items, "@" + (ADDRESS + "."));
    OnlyMention(word, items, "@a@b.c.", ADDRESS + ".");
  }

  /** The same member, mentioned alone and at the end of a sentence: with the full stop the address
      read is another one, and the member is not told. */
  method FullStopMissesMember(word: Word, member: UserId, author: UserId)
    returns (told: seq<UserId>, missed: seq<UserId>)
    requires IsWord(word) && word('a') && word('b') && word('c') && member != author
    ensures told == [member] && missed == []
  {
    ExampleAddresses(word, PATTERN);
    var accounts := map[ADDRESS := member];
    told := NotifyMentions(word, "@a@b.c", accounts, {member}, author);
    missed := NotifyMentions(word, "@a@b.c.", accounts, {member}, author);
    MentionedIffWritten(word, "@a@b.c", ADDRESS);
    MentionedIffWritten(word, "@a@b.c.", ADDRESS);
    assert accounts[ADDRESS] == member;
    assert |ADDRESS + "."| != |ADDRESS|;
    assert member in told && forall u :: u !in missed;
    AtMost(told, {member});
    AtMost(missed, {});
    assert told[0] in told;
  }

  lemma {:induction false} AtMost(xs: seq<UserId>, users: set<UserId>)
    requires NoDuplicates(xs) && forall x :: x in xs ==> x in users
    ensures |xs| <= |users|
  {
    if xs != [] {
      var shorter, last := xs[..|xs| - 1], xs[|xs| - 1];
      assert xs == shorter + [last] && last !in shorter;
      AtMost(shorter, users - {last});
    }
  }
}
