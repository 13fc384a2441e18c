/** Names of the publish/subscribe channels and how the listener reads them back
    (backend/app/ws/events.py:27-54). */
module Channels {
  import opened Ids

  /** str.split(":") */
  function Split(s: string): (parts: seq<string>)
    ensures parts != []
  {
    if s == [] then [[]]
    else
      var rest := Split(s[1..]);
      if s[0] == ':' then [[]] + rest else [[s[0]] + rest[0]] + rest[1..]
  }

  function Join(parts: seq<string>): string
    requires parts != []
  {
    if |parts| == 1 then parts[0] else parts[0] + ":" + Join(parts[1..])
  }

  // ---------------------------------------------------------------- the textual form of UUIDs

  function Pow16(n: nat): nat {
    if n == 0 then 1 else 16 * Pow16(n - 1)
  }

  function HexDigit(d: nat): char
    requires d < 16
  {
    if d < 10 then ('0' as int + d) as char else ('a' as int + (d - 10)) as char
  }

  /** A hexadecimal digit in either case. */
  function HexValue(c: char): (d: Option<nat>)
    ensures d.Some? ==> d.value < 16
  {
    if '0' <= c <= '9' then Some(c as int - '0' as int)
    else if 'a' <= c <= 'f' then Some(c as int - 'a' as int + 10)
    else if 'A' <= c <= 'F' then Some(c as int - 'A' as int + 10)
    else None
  }

  /** The low `width` hexadecimal digits, lower case. */
  function Hex(n: nat, width: nat): (s: string)
    ensures |s| == width
  {
    if width == 0 then [] else Hex(n / 16, width - 1) + [HexDigit(n % 16)]
  }

  function ParseHex(s: string): Option<nat> {
    if s == [] then Some(0)
    else
      var high, low := ParseHex(s[..|s| - 1]), HexValue(s[|s| - 1]);
      if high.Some? && low.Some? then Some(16 * high.value + low.value) else None
  }

  function Remove(s: string, c: char): string {
    if s == [] then [] else (if s[0] == c then [] else [s[0]]) + Remove(s[1..], c)
  }

  predicate Brace(c: char) {
    c == '{' || c == '}'
  }

  /** str.strip("{}") */
  function StripBraces(s: string): string {
    if s != [] && Brace(s[0]) then StripBraces(s[1..])
    else if s != [] && Brace(s[|s| - 1]) then StripBraces(s[..|s| - 1])
    else s
  }

  /** Section 4 of RFC 9562: 32 lower-case hexadecimal digits in groups of 8, 4, 4, 4 and 12. */
  function UuidText(id: nat): string {
    var h := Hex(id, 32);
    h[..8] + "-" + (h[8..12] + "-" + (h[12..16] + "-" + (h[16..20] + "-" + h[20..])))
  }

  /** uuid.UUID(text): braces around it and hyphens anywhere are dropped, and 32 digits must be left. */
  function ReadUuid(text: string): Option<nat> {
    var digits := Remove(StripBraces(text), '-');
    if |digits| != 32 then None else ParseHex(digits)
  }

  lemma {:induction false} HexReads(n: nat, width: nat)
    requires n < Pow16(width)
    ensures ParseHex(Hex(n, width)) == Some(n)
  {
    if width > 0 {
      HexReads(n / 16, width - 1);
      assert Hex(n, width)[..width - 1] == Hex(n / 16, width - 1);
      assert HexValue(HexDigit(n % 16)) == Some(n % 16);
    }
  }

  predicate IsHex(s: string) {
    forall i :: 0 <= i < |s| ==> '0' <= s[i] <= '9' || 'a' <= s[i] <= 'f'
  }

  lemma {:induction false} HexIsHex(n: nat, width: nat)
    ensures IsHex(Hex(n, width))
  {
    if width > 0 { HexIsHex(n / 16, width - 1); }
  }

  lemma {:induction false} RemoveNothing(s: string, c: char)
    requires c !in s
    ensures Remove(s, c) == s
  {
    if s != [] {
      RemoveNothing(s[1..], c);
      assert s == [s[0]] + s[1..];
    }
  }

  lemma {:induction false} RemoveBetween(a: string, c: char, rest: string)
    requires c !in a
    ensures Remove(a + [c] + rest, c) == a + Remove(rest, c)
  {
    var s := a + [c] + rest;
    if a == [] {
      assert s[1..] == rest;
    } else {
      assert s[1..] == a[1..] + [c] + rest;
      RemoveBetween(a[1..], c, rest);
      assert a == [a[0]] + a[1..];
    }
  }

  /** Dropping the hyphens joins the groups again. */
  lemma Regroup(h: string)
    requires |h| == 32 && IsHex(h)
    ensures Remove(h[..8] + "-" + (h[8..12] + "-" + (h[12..16] + "-" + (h[16..20] + "-" + h[20..]))), '-') == h
  {
    RemoveNothing(h[20..], '-');
    RemoveBetween(h[16..20], '-', h[20..]);
    RemoveBetween(h[12..16], '-', h[16..20] + "-" + h[20..]);
    RemoveBetween(h[8..12], '-', h[12..16] + "-" + (h[16..20] + "-" + h[20..]));
    RemoveBetween(h[..8], '-', h[8..12] + "-" + (h[12..16] + "-" + (h[16..20] + "-" + h[20..])));
    assert h == h[..8] + (h[8..12] + (h[12..16] + (h[16..20] + h[20..])));
  }

  lemma TextEnds(h: string)
    requires |h| == 32 && IsHex(h)
    ensures var text := h[..8] + "-" + (h[8..12] + "-" + (h[12..16] + "-" + (h[16..20] + "-" + h[20..])));
            ':' !in text && text != [] && !Brace(text[0]) && !Brace(text[|text| - 1])
  {
  }

  /** 36 characters: hyphens at four places, lower-case hexadecimal digits elsewhere. */
  predicate Canonical(text: string) {
    |text| == 36
    && forall i :: 0 <= i < 36 ==>
         if i == 8 || i == 13 || i == 18 || i == 23 then text[i] == '-'
         else '0' <= text[i] <= '9' || 'a' <= text[i] <= 'f'
  }

  lemma TextIsCanonical(h: string)
    requires |h| == 32 && IsHex(h)
    ensures Canonical(h[..8] + "-" + (h[8..12] + "-" + (h[12..16] + "-" + (h[16..20] + "-" + h[20..]))))
  {
  }

  /** The text has no colon, and reading it gives the identifier back. */
  lemma UuidReadsBack(id: nat)
    requires id < Pow16(32)
    ensures ':' !in UuidText(id) && ReadUuid(UuidText(id)) == Some(id)
    ensures Canonical(UuidText(id))
  {
    HexIsHex(id, 32);
    TextIsCanonical(Hex(id, 32));
    HexReads(id, 32);
    Regroup(Hex(id, 32));
    TextEnds(Hex(id, 32));
    assert StripBraces(UuidText(id)) == UuidText(id);
  }

  // ---------------------------------------------------------------- exactly which texts are read

  function Lower(c: char): char {
    if 'A' <= c <= 'F' then (c as int - 'A' as int + 'a' as int) as char else c
  }

  /** The text without hyphens, its hexadecimal digits in lower case. */
  function Bare(text: string): string {
    if text == [] then []
    else if text[0] == '-' then Bare(text[1..])
    else [Lower(text[0])] + Bare(text[1..])
  }

  function Lowered(s: string): string {
    seq(|s|, i requires 0 <= i < |s| => Lower(s[i]))
  }

  lemma {:induction false} BareIs(text: string)
    ensures Bare(text) == Lowered(Remove(text, '-'))
  {
    if text != [] { BareIs(text[1..]); }
  }

  /** Digits read as a number exactly if in lower case they are that number's digits. */
  lemma {:induction false} ReadsIffDigits(s: string, n: nat)
    ensures ParseHex(s) == Some(n) <==> n < Pow16(|s|) && Lowered(s) == Hex(n, |s|)
  {
    if s != [] {
      ReadsIffDigits(s[..|s| - 1], n / 16);
      DigitReads(s[|s| - 1], n % 16);
      LastDigit(s, n);
      LastRead(s, n);
    }
  }

  lemma LastRead(s: string, n: nat)
    requires s != []
    ensures var k := |s| - 1;
            ParseHex(s) == Some(n) <==> ParseHex(s[..k]) == Some(n / 16) && HexValue(s[k]) == Some(n % 16)
    ensures n < Pow16(|s|) <==> n / 16 < Pow16(|s| - 1)
  {
    DividedBound(n, Pow16(|s| - 1));
    var high, low := ParseHex(s[..|s| - 1]), HexValue(s[|s| - 1]);
    if high.Some? && low.Some? { HighAndLow(high.value, low.value, n); }
  }

  lemma DividedBound(n: nat, bound: nat)
    ensures n < 16 * bound <==> n / 16 < bound
  {
  }

  lemma HighAndLow(high: nat, low: nat, n: nat)
    requires low < 16
    ensures 16 * high + low == n <==> high == n / 16 && low == n % 16
  {
  }

  lemma LastDigit(s: string, n: nat)
    requires s != []
    ensures var k := |s| - 1;
            Lowered(s) == Hex(n, |s|) <==> Lowered(s[..k]) == Hex(n / 16, k) && Lower(s[k]) == HexDigit(n % 16)
  {
    var k := |s| - 1;
    assert Lowered(s) == Lowered(s[..k]) + [Lower(s[k])];
    assert Hex(n, |s|) == Hex(n / 16, k) + [HexDigit(n % 16)];
    assert Lowered(s)[..k] == Lowered(s[..k]) && Hex(n, |s|)[..k] == Hex(n / 16, k);
    assert Lowered(s)[k] == Lower(s[k]) && Hex(n, |s|)[k] == HexDigit(n % 16);
  }

  lemma DigitReads(c: char, d: nat)
    requires d < 16
    ensures HexValue(c) == Some(d) <==> Lower(c) == HexDigit(d)
  {
  }

  predicate Braces(s: string) {
    forall i :: 0 <= i < |s| ==> s[i] == '{' || s[i] == '}'
  }

  lemma {:induction false} Stripped(text: string) returns (open: string, close: string)
    ensures text == open + StripBraces(text) + close
    ensures Braces(open) && Braces(close)
  {
    if text != [] && Brace(text[0]) {
      open, close := Stripped(text[1..]);
      Regrouped([text[0]], open, StripBraces(text), close);
      assert text == [text[0]] + text[1..];
      open := [text[0]] + open;
    } else if text != [] && Brace(text[|text| - 1]) {
      open, close := Stripped(text[..|text| - 1]);
      assert text == text[..|text| - 1] + [text[|text| - 1]];
      close := close + [text[|text| - 1]];
    } else {
      open, close := "", "";
    }
  }

  lemma Regrouped(first: string, open: string, body: string, close: string)
    ensures first + (open + body + close) == first + open + body + close
  {
  }

  lemma {:induction false} StripsFront(open: string, rest: string)
    requires Braces(open)
    ensures StripBraces(open + rest) == StripBraces(rest)
  {
    if open == [] {
      assert open + rest == rest;
    } else {
      assert (open + rest)[1..] == open[1..] + rest;
      StripsFront(open[1..], rest);
    }
  }

  lemma {:induction false} StripsBack(body: string, close: string)
    requires body != [] && !Brace(body[0]) && !Brace(body[|body| - 1]) && Braces(close)
    ensures StripBraces(body + close) == body
  {
    if close == [] {
      assert body + close == body;
    } else {
      var text, k := body + close, |close| - 1;
      assert text[..|text| - 1] == body + close[..k] && text[|text| - 1] == close[k];
      StripsBack(body, close[..k]);
    }
  }

  lemma {:induction false} BareKeeps(text: string, c: char)
    requires c in text && c != '-' && Lower(c) == c
    ensures c in Bare(text)
  {
    if text[0] != c {
      assert c in text[1..];
      BareKeeps(text[1..], c);
    }
  }

  lemma NoBraces(body: string, n: nat, width: nat)
    requires Bare(body) == Hex(n, width) && width > 0
    ensures body != [] && !Brace(body[0]) && !Brace(body[|body| - 1])
  {
    HexIsHex(n, width);
    assert '{' !in Hex(n, width) && '}' !in Hex(n, width);
    if '{' in body { BareKeeps(body, '{'); }
    if '}' in body { BareKeeps(body, '}'); }
  }

  /** Between braces, the digits of this number, in either case and with hyphens anywhere. */
  ghost predicate Spells(text: string, n: nat, width: nat) {
    exists open, body, close ::
      text == open + body + close && Braces(open) && Braces(close) && Bare(body) == Hex(n, width)
  }

  lemma StripsToBody(open: string, body: string, close: string, n: nat, width: nat)
    requires Braces(open) && Braces(close) && Bare(body) == Hex(n, width) && width > 0
    ensures StripBraces(open + body + close) == body
  {
    NoBraces(body, n, width);
    StripsBack(body, close);
    StripsFront(open, body + close);
    assert open + body + close == open + (body + close);
  }

  lemma SpellsWhatIsRead(text: string, n: nat, width: nat)
    requires width > 0
    ensures Spells(text, n, width) <==> Bare(StripBraces(text)) == Hex(n, width)
  {
    var open, close := Stripped(text);
    forall o, body, c | text == o + body + c && Braces(o) && Braces(c) && Bare(body) == Hex(n, width)
      ensures StripBraces(text) == body
    {
      StripsToBody(o, body, c, n, width);
    }
  }

  /** A text is read as an identifier if and only if it is, between any braces, the identifier's 32
      hexadecimal digits in either case, with hyphens anywhere. */
  lemma ReadIffSpelled(text: string, id: nat)
    ensures ReadUuid(text) == Some(id) <==> id < Pow16(32) && Spells(text, id, 32)
  {
    var digits := Remove(StripBraces(text), '-');
    SpellsWhatIsRead(text, id, 32);
    BareIs(StripBraces(text));
    ReadsIffDigits(digits, id);
  }

  // ---------------------------------------------------------------- channel names

  const PROJECT := "project"
  const EVENTS := "events"
  const USER := "user"
  const NOTIFICATIONS := "notifications"

  function ChannelName(prefix: string, id: nat, suffix: string): string {
    prefix + ":" + UuidText(id) + ":" + suffix
  }

  function EntityId(channel: string, prefix: string, suffix: string): Option<nat> {
    var parts := Split(channel);
    if |parts| != 3 || parts[0] != prefix || parts[2] != suffix then None else ReadUuid(parts[1])
  }

  function ProjectChannel(project: nat): string {
    ChannelName(PROJECT, project, EVENTS)
  }

  function ProjectIdFromChannel(channel: string): Option<nat> {
    EntityId(channel, PROJECT, EVENTS)
  }

  function NotificationChannel(user: nat): string {
    ChannelName(USER, user, NOTIFICATIONS)
  }

  function UserIdFromNotificationChannel(channel: string): Option<nat> {
    EntityId(channel, USER, NOTIFICATIONS)
  }

  lemma {:induction false} SplitPlain(s: string)
    requires ':' !in s
    ensures Split(s) == [s]
  {
    if s != [] {
      SplitPlain(s[1..]);
      assert [s[0]] + s[1..] == s;
    }
  }

  lemma {:induction false} SplitAtColon(a: string, rest: string)
    requires ':' !in a
    ensures Split(a + ":" + rest) == [a] + Split(rest)
  {
    var s := a + ":" + rest;
    if a == [] {
      assert s[1..] == rest;
    } else {
      assert s[1..] == a[1..] + ":" + rest;
      SplitAtColon(a[1..], rest);
      assert [a[0]] + a[1..] == a;
      assert ([a[1..]] + Split(rest))[1..] == Split(rest);
    }
  }

  lemma {:induction false} JoinSplit(s: string)
    ensures Join(Split(s)) == s
  {
    if s != [] {
      JoinSplit(s[1..]);
      var rest := Split(s[1..]);
      if s[0] == ':' {
        assert ([[]] + rest)[1..] == rest;
      } else {
        assert ([[s[0]] + rest[0]] + rest[1..])[1..] == rest[1..];
      }
    }
  }

  /** A channel reads back as the identifier it was made from, and only under its own prefix and suffix. */
  lemma NamesReadBack(prefix: string, id: nat, suffix: string, otherPrefix: string, otherSuffix: string)
    requires id < Pow16(32) && ':' !in prefix && ':' !in suffix
    ensures EntityId(ChannelName(prefix, id, suffix), otherPrefix, otherSuffix)
         == if otherPrefix == prefix && otherSuffix == suffix then Some(id) else None
  {
    var text := UuidText(id);
    UuidReadsBack(id);
    assert ChannelName(prefix, id, suffix) == prefix + ":" + (text + ":" + suffix);
    SplitAtColon(prefix, text + ":" + suffix);
    SplitAtColon(text, suffix);
    SplitPlain(suffix);
  }

  /** The names as Redis sees them. */
  lemma ChannelTexts(id: nat)
    ensures ProjectChannel(id) == "project:" + UuidText(id) + ":events"
    ensures NotificationChannel(id) == "user:" + UuidText(id) + ":notifications"
  {
    Colons("project", UuidText(id), "events");
    Colons("user", UuidText(id), "notifications");
    assert "project" + ":" == "project:" && ":" + "events" == ":events";
    assert "user" + ":" == "user:" && ":" + "notifications" == ":notifications";
  }

  lemma Colons(prefix: string, text: string, suffix: string)
    ensures prefix + ":" + text + ":" + suffix == (prefix + ":") + text + (":" + suffix)
  {
  }

  /** Each listener reads exactly the identifiers of its own channels. */
  lemma ListenersReadTheirOwn(id: nat)
    requires id < Pow16(32)
    ensures ProjectIdFromChannel(ProjectChannel(id)) == Some(id)
    ensures UserIdFromNotificationChannel(NotificationChannel(id)) == Some(id)
    ensures UserIdFromNotificationChannel(ProjectChannel(id)) == None
    ensures ProjectIdFromChannel(NotificationChannel(id)) == None
  {
    assert PROJECT[0] == 'p' && USER[0] == 'u';
    NamesReadBack(PROJECT, id, EVENTS, PROJECT, EVENTS);
    NamesReadBack(PROJECT, id, EVENTS, USER, NOTIFICATIONS);
    NamesReadBack(USER, id, NOTIFICATIONS, PROJECT, EVENTS);
    NamesReadBack(USER, id, NOTIFICATIONS, USER, NOTIFICATIONS);
  }

  /** Whatever text arrives as a channel, it is accepted only if it is exactly the prefix, an
      identifier's text and the suffix, joined by colons. */
  lemma AcceptedShape(channel: string, prefix: string, suffix: string)
    requires EntityId(channel, prefix, suffix).Some?
    ensures exists text :: channel == prefix + ":" + text + ":" + suffix
              && ReadUuid(text) == EntityId(channel, prefix, suffix)
  {
    JoinSplit(channel);
    var parts := Split(channel);
    assert Join(parts) == parts[0] + ":" + Join(parts[1..]);
    assert Join(parts[1..]) == parts[1] + ":" + Join(parts[2..]);
    assert channel == prefix + ":" + parts[1] + ":" + suffix;
  }

  /** No text at all is accepted by both listeners, and each accepts only its own form. */
  lemma NamespacesDisjoint(channel: string)
    ensures ProjectIdFromChannel(channel).Some? ==>
              && UserIdFromNotificationChannel(channel).None?
              && exists text :: channel == PROJECT + ":" + text + ":" + EVENTS
                   && ReadUuid(text) == ProjectIdFromChannel(channel)
    ensures UserIdFromNotificationChannel(channel).Some? ==>
              && ProjectIdFromChannel(channel).None?
              && exists text :: channel == USER + ":" + text + ":" + NOTIFICATIONS
                                && ReadUuid(text) == UserIdFromNotificationChannel(channel)
  {
    assert PROJECT[0] == 'p' && USER[0] == 'u';
    if ProjectIdFromChannel(channel).Some? { AcceptedShape(channel, PROJECT, EVENTS); }
    if UserIdFromNotificationChannel(channel).Some? { AcceptedShape(channel, USER, NOTIFICATIONS); }
  }
}
