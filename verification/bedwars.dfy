/** The Bedwars utilities plugin's game tracker: chat lines are cleaned of
    colour codes and surrounding white space and matched against the
    game's start and end announcements; a started flag turns the matches
    (and a respawn, which means a world change) into one start event per
    game and one end event per started game. The delayed `/who` it sends
    after a start and its log lines are not modelled. */
module Bedwars {
  import opened Common

  // ---------------------------------------------------------------------
  // Cleaning a chat line

  /** The characters `[0-9a-fk-or]` matches after a `§`. */
  predicate CodeChar(c: char) {
    '0' <= c <= '9' || 'a' <= c <= 'f' || 'k' <= c <= 'o' || c == 'r'
  }

  /** A colour code starts the string. */
  predicate CodeFirst(s: string) {
    |s| >= 2 && s[0] == '§' && CodeChar(s[1])
  }

  /** `message.replace(/§[0-9a-fk-or]/g, '')`, scanning left to right. */
  function RemoveCodes(s: string): (r: string)
    ensures |r| <= |s|
    decreases |s|
  {
    if s == [] then []
    else if CodeFirst(s) then RemoveCodes(s[2..])
    else [s[0]] + RemoveCodes(s[1..])
  }

  /** The white space and line terminators `trim` removes. */
  predicate WhiteSpace(c: char) {
    || c == '\t' || c == '\n' || c == '\U{000B}' || c == '\U{000C}' || c == '\r' || c == ' '
    || c == '\U{00A0}' || c == '\U{1680}' || ('\U{2000}' <= c <= '\U{200A}')
    || c == '\U{2028}' || c == '\U{2029}' || c == '\U{202F}' || c == '\U{205F}'
    || c == '\U{3000}' || c == '\U{FEFF}'
  }

  /** Where the text starts: the first non-space position from `i` on. */
  function TextStart(s: string, i: nat): (a: nat)
    requires i <= |s|
    ensures i <= a <= |s| && (a < |s| ==> !WhiteSpace(s[a]))
    ensures forall k :: i <= k < a ==> WhiteSpace(s[k])
    decreases |s| - i
  {
    if i < |s| && WhiteSpace(s[i]) then TextStart(s, i + 1) else i
  }

  /** Where the text ends: just after the last non-space position before
      `j`, but not before `a`. */
  function TextEnd(s: string, a: nat, j: nat): (b: nat)
    requires a <= j <= |s|
    ensures a <= b <= j && (b > a ==> !WhiteSpace(s[b - 1]))
    ensures forall k :: b <= k < j ==> WhiteSpace(s[k])
    decreases j
  {
    if j > a && WhiteSpace(s[j - 1]) then TextEnd(s, a, j - 1) else j
  }

  /** `s.trim()`: white space dropped from both ends. */
  function Trim(s: string): (r: string)
    ensures r != [] ==> !WhiteSpace(r[0]) && !WhiteSpace(r[|r| - 1])
    ensures |r| <= |s|
  {
    var a := TextStart(s, 0);
    s[a..TextEnd(s, a, |s|)]
  }

  /** A line as the classifiers see it. */
  function Clean(message: string): string {
    Trim(RemoveCodes(message))
  }

  const StartText: string := "Protect your bed and destroy the enemy beds."
  const WinnerText: string := "WINNER!"
  const EliminatedText: string := "has been eliminated!"

  /** `isBedwarsStartMessage`. */
  predicate IsStart(message: string) {
    Contains(Clean(message), StartText)
  }

  /** `isBedwarsEndMessage`. */
  predicate IsEnd(message: string) {
    Contains(Clean(message), WinnerText) || Contains(Clean(message), EliminatedText)
  }

  // ---------------------------------------------------------------------
  // What cleaning does to a match

  /** Text that begins and ends with a non-space character. */
  predicate Solid(n: string) {
    n != [] && !WhiteSpace(n[0]) && !WhiteSpace(n[|n| - 1])
  }

  /** An occurrence in a slice is an occurrence in the whole, shifted by
      where the slice starts. */
  lemma SliceOccurs(s: string, a: int, b: int, n: string, j: int)
    requires 0 <= a <= b <= |s| && 0 <= j
    ensures OccursAt(s[a..b], n, j) <==> OccursAt(s, n, a + j) && a + j + |n| <= b
  {
    if j + |n| <= b - a {
      var x, y := s[a..b][j..j + |n|], s[a + j..a + j + |n|];
      assert |x| == |y|;
      assert forall k :: 0 <= k < |x| ==> x[k] == s[a + j + k] == y[k];
      assert x == y;
    }
  }

  /** Dropping white space from either end of a string keeps every solid
      occurrence. */
  lemma TrimmedKeepsContains(s: string, a: int, b: int, n: string)
    requires Solid(n) && 0 <= a <= b <= |s|
    requires forall i :: 0 <= i < a ==> WhiteSpace(s[i])
    requires forall i :: b <= i < |s| ==> WhiteSpace(s[i])
    ensures Contains(s[a..b], n) <==> Contains(s, n)
  {
    if Contains(s, n) {
      var i :| 0 <= i <= |s| && OccursAt(s, n, i);
      assert s[i] == n[0] by { assert s[i..i + |n|][0] == s[i]; }
      assert s[i + |n| - 1] == n[|n| - 1] by { assert s[i..i + |n|][|n| - 1] == s[i + |n| - 1]; }
      SliceOccurs(s, a, b, n, i - a);
      assert OccursAt(s[a..b], n, i - a);
    }
    if Contains(s[a..b], n) {
      var j :| 0 <= j <= |s[a..b]| && OccursAt(s[a..b], n, j);
      SliceOccurs(s, a, b, n, j);
    }
  }

  /** Trimming never decides a match on a solid text: only the colour
      codes matter. */
  lemma TrimKeepsContains(s: string, n: string)
    requires Solid(n)
    ensures Contains(Trim(s), n) <==> Contains(s, n)
  {
    var a := TextStart(s, 0);
    var b := TextEnd(s, a, |s|);
    TrimmedKeepsContains(s, a, b, n);
  }

  /** The announcements are solid texts. */
  lemma AnnouncementsSolid()
    ensures Solid(StartText) && Solid(WinnerText) && Solid(EliminatedText)
  {
  }

  /** A line is a start line exactly when it holds the start text once
      its colour codes are gone; likewise for the end texts. */
  lemma ClassifiersIgnoreSpace(message: string)
    ensures IsStart(message) <==> Contains(RemoveCodes(message), StartText)
    ensures IsEnd(message) <==>
              Contains(RemoveCodes(message), WinnerText) || Contains(RemoveCodes(message), EliminatedText)
  {
    AnnouncementsSolid();
    var s := RemoveCodes(message);
    TrimKeepsContains(s, StartText);
    TrimKeepsContains(s, WinnerText);
    TrimKeepsContains(s, EliminatedText);
  }

  /** Removing codes from two pieces separately is removing them from the
      whole, unless the first piece ends in `§` (which could pair with the
      second's first character). */
  lemma {:induction false} RemoveCodesAppend(a: string, b: string)
    requires a == [] || a[|a| - 1] != '§'
    ensures RemoveCodes(a + b) == RemoveCodes(a) + RemoveCodes(b)
    decreases |a|
  {
    if a == [] {
      assert a + b == b;
    } else {
      var ab := a + b;
      assert ab[0] == a[0];
      assert CodeFirst(ab) == CodeFirst(a) by {
        if |a| >= 2 { assert ab[1] == a[1]; }
      }
      if CodeFirst(a) {
        assert ab[2..] == a[2..] + b;
        RemoveCodesAppend(a[2..], b);
      } else {
        assert ab[1..] == a[1..] + b;
        RemoveCodesAppend(a[1..], b);
      }
    }
  }

  /** Text without `§` has nothing to remove. */
  lemma {:induction false} NoSectionUntouched(s: string)
    requires forall i :: 0 <= i < |s| ==> s[i] != '§'
    ensures RemoveCodes(s) == s
    decreases |s|
  {
    if s != [] {
      NoSectionUntouched(s[1..]);
    }
  }

  /** The start text written plainly into a line is recognised, whatever
      comes around it, as long as no `§` sits right before it. */
  lemma PlainStartRecognised(before: string, after: string)
    requires before == [] || before[|before| - 1] != '§'
    ensures IsStart(before + StartText + after)
  {
    var message := before + StartText + after;
    CodesAroundPlainText(before, StartText, after);
    var s := RemoveCodes(before) + StartText + RemoveCodes(after);
    SliceOccurs(s, |RemoveCodes(before)|, |RemoveCodes(before) + StartText|, StartText, 0);
    assert s[|RemoveCodes(before)|..|RemoveCodes(before) + StartText|] == StartText;
    ClassifiersIgnoreSpace(message);
  }

  /** Plain text, without a `§`, goes through code removal as it is, and
      the text around it is cleaned on its own. */
  lemma CodesAroundPlainText(before: string, text: string, after: string)
    requires before == [] || before[|before| - 1] != '§'
    requires text != [] && forall i :: 0 <= i < |text| ==> text[i] != '§'
    ensures RemoveCodes(before + text + after) == RemoveCodes(before) + text + RemoveCodes(after)
  {
    NoSectionUntouched(text);
    RemoveCodesAppend(before, text);
    RemoveCodesAppend(before + text, after);
  }

  // ---------------------------------------------------------------------
  // The tracker

  /** The plugin's state: its `enabled` setting and whether a game is on. */
  datatype Tracker = Tracker(enabled: bool, gameStarted: bool)

  /** The events the plugin emits. */
  datatype Event = GameStart | GameEnd

  /** A state and the events emitted on the way to it. */
  datatype Step = Step(t: Tracker, events: seq<Event>)

  /** `handleGameStart`: a start while a game is on changes nothing. */
  function HandleGameStart(t: Tracker): (r: Step)
    ensures r.t.gameStarted && r.t.enabled == t.enabled
    ensures r.events == (if t.gameStarted then [] else [GameStart])
  {
    if t.gameStarted then Step(t, []) else Step(t.(gameStarted := true), [GameStart])
  }

  /** `handleGameEnd`: ends a game that is on; otherwise nothing. */
  function HandleGameEnd(t: Tracker): (r: Step)
    ensures !r.t.gameStarted && r.t.enabled == t.enabled
    ensures r.events == (if t.gameStarted then [GameEnd] else [])
  {
    if t.gameStarted then Step(t.(gameStarted := false), [GameEnd]) else Step(t, [])
  }

  /** `onWorldChange`, on a respawn: ends a game that is on, whatever the
      `enabled` setting. */
  function OnWorldChange(t: Tracker): (r: Step)
    ensures !r.t.gameStarted && r.t.enabled == t.enabled
    ensures r.events == (if t.gameStarted then [GameEnd] else [])
  {
    HandleGameEnd(t)
  }

  /** `onChat`: nothing when disabled; a start line starts (even when it
      is an end line too); an end line ends. */
  function OnChat(t: Tracker, message: string): (r: Step)
    ensures !t.enabled ==> r == Step(t, [])
    ensures t.enabled && IsStart(message) ==> r == HandleGameStart(t)
    ensures t.enabled && !IsStart(message) && IsEnd(message) ==> r == HandleGameEnd(t)
    ensures !IsStart(message) && !IsEnd(message) ==> r == Step(t, [])
  {
    if !t.enabled then Step(t, [])
    else if IsStart(message) then HandleGameStart(t)
    else if IsEnd(message) then HandleGameEnd(t)
    else Step(t, [])
  }

  /** Starting twice is starting once. */
  lemma StartIdempotent(t: Tracker)
    ensures HandleGameStart(HandleGameStart(t).t) == Step(HandleGameStart(t).t, [])
  {
  }

  /** What the plugin hears. */
  datatype Input = Chat(message: string) | Respawn

  function Feed(t: Tracker, i: Input): (r: Step)
    ensures |r.events| <= 1 && r.t.enabled == t.enabled
    ensures r.events == [GameStart] ==> !t.gameStarted && r.t.gameStarted
    ensures r.events == [GameEnd] ==> t.gameStarted && !r.t.gameStarted
    ensures r.events == [] ==> r.t.gameStarted == t.gameStarted
  {
    match i
    case Chat(m) => OnChat(t, m)
    case Respawn => OnWorldChange(t)
  }

  /** The plugin run over a sequence of inputs. */
  function Run(t: Tracker, ins: seq<Input>): (r: Step)
    decreases |ins|
  {
    if ins == [] then Step(t, [])
    else
      var first := Feed(t, ins[0]);
      var rest := Run(first.t, ins[1..]);
      Step(rest.t, first.events + rest.events)
  }

  /** The `n`th event of a run that begins with the game on or off. */
  function Expected(started: bool, n: int): Event {
    if (n % 2 == 0) != started then GameStart else GameEnd
  }

  /** Over any run, starts and ends alternate: never two starts without an
      end between them, and the flag afterwards says which came last. */
  lemma {:induction false} EventsAlternate(t: Tracker, ins: seq<Input>)
    ensures var r := Run(t, ins);
            && (forall n :: 0 <= n < |r.events| ==> r.events[n] == Expected(t.gameStarted, n))
            && r.t.gameStarted == (t.gameStarted != (|r.events| % 2 == 1))
            && r.t.enabled == t.enabled
    decreases |ins|
  {
    if ins != [] {
      var first := Feed(t, ins[0]);
      EventsAlternate(first.t, ins[1..]);
      var rest := Run(first.t, ins[1..]);
      Alternation(t.gameStarted, first.events, first.t.gameStarted, rest.events, rest.t.gameStarted);
    }
  }

  /** One step's events in front of an alternating run keep it
      alternating, provided the step moved the flag as its events say. */
  lemma Alternation(s0: bool, e: seq<Event>, s1: bool, rest: seq<Event>, s2: bool)
    requires |e| <= 1
    requires e == [] ==> s1 == s0
    requires e == [GameStart] ==> !s0 && s1
    requires e == [GameEnd] ==> s0 && !s1
    requires forall n :: 0 <= n < |rest| ==> rest[n] == Expected(s1, n)
    requires s2 == (s1 != (|rest| % 2 == 1))
    ensures forall n :: 0 <= n < |e + rest| ==> (e + rest)[n] == Expected(s0, n)
    ensures s2 == (s0 != (|e + rest| % 2 == 1))
  {
    if e != [] {
      assert e == [e[0]];
      assert s1 == !s0 by { if e[0] == GameStart { assert e == [GameStart]; } else { assert e == [GameEnd]; } }
      forall n | 0 <= n < |e + rest| ensures (e + rest)[n] == Expected(s0, n) {
        if n == 0 {
          if e[0] == GameStart { assert e == [GameStart]; } else { assert e == [GameEnd]; }
        } else {
          assert (e + rest)[n] == rest[n - 1];
          assert (n % 2 == 0) == ((n - 1) % 2 == 1);
        }
      }
    } else {
      assert e + rest == rest;
    }
  }

  /** A colour code is dropped wherever it sits, as long as it does not
      follow a lone `§`: the text on either side closes up around it. */
  lemma CodeDropped(before: string, c: char, after: string)
    requires before == [] || before[|before| - 1] != '§'
    requires CodeChar(c)
    ensures RemoveCodes(before + ['§', c] + after) == RemoveCodes(before) + RemoveCodes(after)
  {
    var code := ['§', c] + after;
    assert before + ['§', c] + after == before + code;
    RemoveCodesAppend(before, code);
    assert CodeFirst(code) && code[2..] == after;
  }
}
