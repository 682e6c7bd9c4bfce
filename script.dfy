/** The script shared by every page: the typing effect on the home page,
    the active navigation link and the footer subscription check. */
module Script {
  import opened JsText

  // ----- Typing effect -----

  /** The roles the home page types out, in turn. */
  const Roles: seq<string> :=
    ["Web Developer", "UI/UX Designer", "Web Designer", "Graphic Designer", "Video Editor"]

  /** Delays in milliseconds. */
  const TypingSpeed: int := 90
  const DeletingSpeed: int := 60
  const WordHold: int := 1200
  const GapHold: int := 250

  /** The closure variables `roleIndex`, `charIndex` and `isDeleting`. */
  datatype TypingState = TypingState(roleIndex: nat, charIndex: int, isDeleting: bool)

  /** The state before the first tick. */
  const Start: TypingState := TypingState(0, 0, false)

  /** `roles[roleIndex % roles.length]`. */
  function Role(roleIndex: nat): (r: string)
    ensures |r| >= 2
  {
    Roles[roleIndex % |Roles|]
  }

  /** The roles cycle with period five. */
  lemma RoleCycle(roleIndex: nat)
    ensures Role(roleIndex + |Roles|) == Role(roleIndex)
  {
  }

  /** The text a tick displays: one more character than `charIndex` while
      typing, one fewer while deleting, cut with `substring`'s clamping. */
  function Visible(s: TypingState): (v: string)
    ensures v <= Role(s.roleIndex)
    ensures !s.isDeleting && 0 <= s.charIndex < |Role(s.roleIndex)| ==> v == Role(s.roleIndex)[..s.charIndex + 1]
    ensures s.isDeleting && 1 <= s.charIndex <= |Role(s.roleIndex)| + 1 ==> v == Role(s.roleIndex)[..s.charIndex - 1]
  {
    var current := Role(s.roleIndex);
    if s.isDeleting then Substring(current, 0, s.charIndex - 1) else Substring(current, 0, s.charIndex + 1)
  }

  /** The state after a tick, decided on lengths alone: typing stops when
      `charIndex + 1` reaches the role's length, deleting when
      `charIndex - 1` reaches 0. */
  function NextState(s: TypingState): TypingState {
    var n := |Role(s.roleIndex)|;
    if !s.isDeleting && s.charIndex + 1 >= n then s.(isDeleting := true)
    else if s.isDeleting && s.charIndex - 1 <= 0 then TypingState(s.roleIndex + 1, s.charIndex, false)
    else if s.isDeleting then s.(charIndex := s.charIndex - 1)
    else s.(charIndex := s.charIndex + 1)
  }

  /** What one tick does: the text it shows, the next state and the delay
      before the next tick. */
  datatype Step = Step(visible: string, next: TypingState, delay: int)

  /** One run of `tick`. A fully typed word switches to deleting after a
      hold; a fully deleted word moves to the next role after a short gap;
      otherwise `charIndex` moves one step. */
  function Advance(s: TypingState): (t: Step)
    ensures t.visible == Visible(s)
    ensures !s.isDeleting && t.visible == Role(s.roleIndex) ==>
              t.next == s.(isDeleting := true) && t.delay == WordHold
    ensures s.isDeleting && t.visible == [] ==>
              t.next == TypingState(s.roleIndex + 1, s.charIndex, false) && t.delay == GapHold
    ensures !s.isDeleting && t.visible != Role(s.roleIndex) ==>
              t.next == s.(charIndex := s.charIndex + 1) && t.delay == TypingSpeed
    ensures s.isDeleting && t.visible != [] ==>
              t.next == s.(charIndex := s.charIndex - 1) && t.delay == DeletingSpeed
    ensures t.next == NextState(s)
  {
    var v := Visible(s);
    if !s.isDeleting && v == Role(s.roleIndex) then Step(v, s.(isDeleting := true), WordHold)
    else if s.isDeleting && v == [] then Step(v, TypingState(s.roleIndex + 1, s.charIndex, false), GapHold)
    else if s.isDeleting then Step(v, s.(charIndex := s.charIndex - 1), DeletingSpeed)
    else Step(v, s.(charIndex := s.charIndex + 1), TypingSpeed)
  }

  /** The states the effect can reach: `charIndex` indexes into the current
      role, and is at least 1 while deleting. */
  ghost predicate Reachable(s: TypingState) {
    0 <= s.charIndex < |Role(s.roleIndex)| && (s.isDeleting ==> 1 <= s.charIndex)
  }

  /** Every tick keeps the state reachable. */
  lemma AdvanceKeepsReachable(s: TypingState)
    requires Reachable(s)
    ensures Reachable(Advance(s).next)
  {
    var current := Role(s.roleIndex);
    if !s.isDeleting && s.charIndex + 1 < |current| {
      assert |Visible(s)| < |current|;
    }
  }

  /** `n` ticks from `s`. */
  function Ticks(s: TypingState, n: nat): TypingState
    decreases n
  {
    if n == 0 then s else Ticks(NextState(s), n - 1)
  }

  lemma {:induction false} TicksAdd(s: TypingState, a: nat, b: nat)
    ensures Ticks(s, a + b) == Ticks(Ticks(s, a), b)
    decreases a
  {
    if a > 0 {
      TicksAdd(NextState(s), a - 1, b);
    }
  }

  /** Typing from `charIndex` c reaches the last character of the role
      after one tick per remaining character, showing one more character
      each time. */
  lemma {:induction false} TypingPhase(r: nat, c: int)
    requires 0 <= c < |Role(r)|
    ensures Ticks(TypingState(r, c, false), |Role(r)| - 1 - c) == TypingState(r, |Role(r)| - 1, false)
    decreases |Role(r)| - c
  {
    if c < |Role(r)| - 1 {
      assert NextState(TypingState(r, c, false)) == TypingState(r, c + 1, false);
      TypingPhase(r, c + 1);
    }
  }

  /** Deleting from `charIndex` c reaches `charIndex` 1 after c - 1 ticks. */
  lemma {:induction false} DeletingPhase(r: nat, c: int)
    requires 1 <= c < |Role(r)|
    ensures Ticks(TypingState(r, c, true), c - 1) == TypingState(r, 1, true)
  {
    if c > 1 {
      assert NextState(TypingState(r, c, true)) == TypingState(r, c - 1, true);
      DeletingPhase(r, c - 1);
    }
  }

  /** Typing a role out from `charIndex` c, then holding: after
      |role| - c ticks the effect starts deleting the complete word. */
  lemma TypeOut(r: nat, c: int)
    requires 0 <= c < |Role(r)|
    ensures Ticks(TypingState(r, c, false), |Role(r)| - c) == TypingState(r, |Role(r)| - 1, true)
  {
    var n := |Role(r)|;
    TypingPhase(r, c);
    TicksAdd(TypingState(r, c, false), n - 1 - c, 1);
  }

  /** Deleting from `charIndex` c, then the gap: after c ticks the effect
      starts typing the next role at `charIndex` 1. */
  lemma DeleteOut(r: nat, c: int)
    requires 1 <= c < |Role(r)|
    ensures Ticks(TypingState(r, c, true), c) == TypingState(r + 1, 1, false)
  {
    DeletingPhase(r, c);
    TicksAdd(TypingState(r, c, true), c - 1, 1);
  }

  /** A full word: from the second character of role r, 2·(|role| - 1)
      ticks type the word out, hold, delete it and move on to the second
      character of role r + 1. */
  lemma WordCycle(r: nat)
    ensures Ticks(TypingState(r, 1, false), 2 * (|Role(r)| - 1)) == TypingState(r + 1, 1, false)
  {
    var n := |Role(r)|;
    TypeOut(r, 1);
    DeleteOut(r, n - 1);
    TicksAdd(TypingState(r, 1, false), n - 1, n - 1);
  }

  /** The first word starts from nothing: 2·|role| - 1 ticks bring the
      effect to the second character of the second role. */
  lemma FirstWord()
    ensures Ticks(Start, 2 * |Role(0)| - 1) == TypingState(1, 1, false)
  {
    var n := |Role(0)|;
    TypeOut(0, 0);
    DeleteOut(0, n - 1);
    TicksAdd(Start, n, n - 1);
  }

  /** The typing target and the closure state of the effect. */
  class Typewriter {
    var roleIndex: nat
    var charIndex: int
    var isDeleting: bool
    var text: string

    function State(): TypingState
      reads this
    {
      TypingState(roleIndex, charIndex, isDeleting)
    }

    ghost predicate Valid()
      reads this
    {
      Reachable(State())
    }

    constructor ()
      ensures State() == Start && text == [] && Valid()
    {
      roleIndex, charIndex, isDeleting := 0, 0, false;
      text := [];
    }

    /** `tick()`: shows the next text, updates the state and returns the
        delay it schedules itself with. */
    method Tick() returns (delay: int)
      modifies this
      ensures text == Advance(old(State())).visible
      ensures State() == Advance(old(State())).next
      ensures delay == Advance(old(State())).delay
      ensures text <= Role(old(roleIndex)) && old(roleIndex) <= roleIndex
      ensures old(Valid()) ==> Valid()
    {
      ghost var before := State();
      var current := Role(roleIndex);
      var visible := if isDeleting then Substring(current, 0, charIndex - 1)
                     else Substring(current, 0, charIndex + 1);
      text := visible;
      if !isDeleting && visible == current {
        isDeleting := true;
        delay := WordHold;
      } else if isDeleting && visible == [] {
        isDeleting := false;
        roleIndex := roleIndex + 1;
        delay := GapHold;
      } else {
        charIndex := if isDeleting then charIndex - 1 else charIndex + 1;
        delay := if isDeleting then DeletingSpeed else TypingSpeed;
      }
      if Reachable(before) {
        AdvanceKeepsReachable(before);
      }
    }
  }

  // ----- Active navigation link -----

  /** `pathname.split('/').pop()`: the text after the last `/`. */
  function LastSegment(pathname: string): (r: string)
    ensures '/' !in r
  {
    var parts := Split(pathname, '/');
    parts[|parts| - 1]
  }

  /** The last segment is the longest `/`-free tail of the path. */
  lemma LastSegmentIsTail(pathname: string)
    ensures |LastSegment(pathname)| <= |pathname|
    ensures var r := LastSegment(pathname);
            pathname[|pathname| - |r|..] == r
            && (|r| == |pathname| || pathname[|pathname| - |r| - 1] == '/')
    ensures LastSegment(pathname) == [] <==> pathname == [] || pathname[|pathname| - 1] == '/'
  {
    var parts := Split(pathname, '/');
    var r := parts[|parts| - 1];
    JoinSplit(pathname, '/');
    if |parts| >= 2 {
      JoinLast(parts, "/");
      var init := Join(parts[..|parts| - 1], "/");
      assert pathname == init + ['/'] + r;
      assert pathname[|pathname| - |r|..] == r;
    }
    if r != [] {
      assert pathname[|pathname| - 1] == r[|r| - 1];
    }
  }

  /** `currentPage`: the last path segment, or `index.html` when the path
      ends in `/`. */
  function CurrentPage(pathname: string): (r: string)
    ensures r != [] && '/' !in r
    ensures LastSegment(pathname) != [] ==> r == LastSegment(pathname)
    ensures LastSegment(pathname) == [] ==> r == "index.html"
  {
    var last := LastSegment(pathname);
    if last == [] then "index.html" else last
  }

  /** The site root and any directory path open on `index.html`. */
  lemma CurrentPageOfDirectory(pathname: string)
    requires pathname == [] || pathname[|pathname| - 1] == '/'
    ensures CurrentPage(pathname) == "index.html"
  {
    LastSegmentIsTail(pathname);
  }

  /** The `forEach` over the navigation links: a link is marked active iff
      its `href` equals the current page. */
  method MarkActiveLinks(hrefs: seq<string>, currentPage: string) returns (active: seq<bool>)
    ensures |active| == |hrefs|
    ensures forall i :: 0 <= i < |hrefs| ==> (active[i] <==> hrefs[i] == currentPage)
  {
    active := [];
    for i := 0 to |hrefs|
      invariant |active| == i
      invariant forall j :: 0 <= j < i ==> (active[j] <==> hrefs[j] == currentPage)
    {
      active := active + [hrefs[i] == currentPage];
    }
  }

  /** With distinct hrefs, at most one link is active. */
  lemma AtMostOneActive(hrefs: seq<string>, currentPage: string, active: seq<bool>)
    requires forall i, j :: 0 <= i < j < |hrefs| ==> hrefs[i] != hrefs[j]
    requires |active| == |hrefs|
    requires forall i :: 0 <= i < |hrefs| ==> (active[i] <==> hrefs[i] == currentPage)
    ensures forall i, j :: 0 <= i < |active| && 0 <= j < |active| && active[i] && active[j] ==> i == j
  {
  }

  // ----- Footer subscription -----

  /** The outcome of a click on a subscribe button: whether it was accepted,
      and what the input holds afterwards. */
  datatype Subscription = Subscription(accepted: bool, inputAfter: string)

  /** The subscribe handler: the trimmed input is accepted when it is not
      empty and contains `@`, and the input is then cleared. */
  function Subscribe(input: string): (r: Subscription)
    ensures r.accepted <==> '@' in input
    ensures r.accepted ==> r.inputAfter == []
    ensures !r.accepted ==> r.inputAfter == input
  {
    var email := Trim(input);
    assert ('@' in email) == ('@' in input) by {
      TrimKeepsNonWhitespace(input, '@');
    }
    if email != [] && '@' in email then Subscription(true, []) else Subscription(false, input)
  }
}
