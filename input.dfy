/** Input normalisation: the keyboard, on-screen button and swipe channels
    each name at most one requested heading, and one reversal guard decides
    whether that request replaces the pending heading. */
module Input {
  import opened Wrappers
  import opened Grid

  /** Minimum dominant displacement, in pixels, of a swipe (SWIPE_THRESHOLD). */
  const SwipeThreshold: nat := 30

  /** The guard each channel writes out per requested heading: up needs
      direction.y != 1, down needs direction.y != -1, left needs
      direction.x != 1, right needs direction.x != -1. */
  predicate Permits(direction: Heading, request: Heading)
  {
    match request
    case Up => DY(direction) != 1
    case Down => DY(direction) != -1
    case Left => DX(direction) != 1
    case Right => DX(direction) != -1
  }

  /** The per-component guard rejects exactly the reversal of the committed heading. */
  lemma PermitsIffNotOpposite(direction: Heading, request: Heading)
    ensures Permits(direction, request) <==> request != Opposite(direction)
  {
  }

  /** The pending heading after one input event: a request is taken only while
      the game runs and only when it does not reverse the committed heading. */
  function Steer(running: bool, direction: Heading, pending: Heading, request: Option<Heading>): (p: Heading)
    ensures !running || request.None? ==> p == pending
    ensures running && request.Some? && request.value != Opposite(direction) ==> p == request.value
    ensures p == pending || (request == Some(p) && p != Opposite(direction))
    ensures pending != Opposite(direction) ==> p != Opposite(direction)
  {
    if running && request.Some? && Permits(direction, request.value) then request.value else pending
  }

  /** Between two ticks the committed heading is fixed, so of two accepted
      requests the later one wins, and a rejected one leaves the earlier one. */
  lemma LaterRequestWins(running: bool, direction: Heading, pending: Heading, first: Option<Heading>, second: Option<Heading>)
    ensures var p := Steer(running, direction, Steer(running, direction, pending, first), second);
      if running && second.Some? && second.value != Opposite(direction) then p == second.value
      else p == Steer(running, direction, pending, first)
  {
  }

  /** ASCII case folding of one character. */
  function LowerChar(c: char): char
  {
    if 'A' <= c <= 'Z' then (c as int - 'A' as int + 'a' as int) as char else c
  }

  /** ASCII case folding of a key name (toLowerCase on the names that matter). */
  function LowerAscii(s: string): (t: string)
    ensures |t| == |s|
    ensures forall i :: 0 <= i < |s| ==> t[i] == LowerChar(s[i])
  {
    if s == [] then [] else [LowerChar(s[0])] + LowerAscii(s[1..])
  }

  /** Folding twice folds no further. */
  lemma LowerAsciiIdempotent(s: string)
    ensures LowerAscii(LowerAscii(s)) == LowerAscii(s)
  {
    var t := LowerAscii(s);
    assert forall i :: 0 <= i < |t| ==> LowerChar(t[i]) == t[i];
  }

  /** The lower-case key names that request each heading. */
  function KeyNames(h: Heading): set<string>
  {
    match h
    case Up => {"arrowup", "w"}
    case Down => {"arrowdown", "s"}
    case Left => {"arrowleft", "a"}
    case Right => {"arrowright", "d"}
  }

  /** The heading a key names, after case folding: arrow keys and WASD. */
  function KeyRequest(key: string): (r: Option<Heading>)
    ensures forall h :: r == Some(h) <==> LowerAscii(key) in KeyNames(h)
  {
    var k := LowerAscii(key);
    if k == "arrowup" || k == "w" then Some(Up)
    else if k == "arrowdown" || k == "s" then Some(Down)
    else if k == "arrowleft" || k == "a" then Some(Left)
    else if k == "arrowright" || k == "d" then Some(Right)
    else None
  }

  /** A key and its lower-case spelling name the same heading. */
  lemma KeyRequestIgnoresCase(key: string)
    ensures KeyRequest(LowerAscii(key)) == KeyRequest(key)
  {
    LowerAsciiIdempotent(key);
  }

  /** Browser key names reach the arrow cases whatever their capitalisation,
      and an unrecognised key names nothing. */
  lemma KeyRequestExamples()
    ensures KeyRequest("ArrowUp") == Some(Up)
    ensures KeyRequest("W") == Some(Up)
    ensures KeyRequest("D") == Some(Right)
    ensures KeyRequest("Enter") == None
  {
    assert LowerAscii("ArrowUp") == "arrowup";
    assert LowerAscii("W") == "w";
    assert LowerAscii("D") == "d";
    assert LowerAscii("Enter") == "enter";
  }

  /** The data-direction value of the button for each heading. */
  function ButtonName(h: Heading): string
  {
    match h
    case Up => "up"
    case Down => "down"
    case Left => "left"
    case Right => "right"
  }

  /** The heading a button's data-direction value names (case sensitive). */
  function ButtonRequest(name: string): (r: Option<Heading>)
    ensures forall h :: r == Some(h) <==> name == ButtonName(h)
  {
    if name == "up" then Some(Up)
    else if name == "down" then Some(Down)
    else if name == "left" then Some(Left)
    else if name == "right" then Some(Right)
    else None
  }

  function Abs(n: int): nat
  {
    if n < 0 then -n else n
  }

  /** The heading a swipe with displacement (dx, dy) names. */
  function SwipeRequest(dx: int, dy: int): (r: Option<Heading>)
    ensures r.Some? <==> (Abs(dx) > SwipeThreshold && Abs(dx) > Abs(dy)) || (Abs(dy) > SwipeThreshold && Abs(dy) >= Abs(dx))
    ensures r.Some? ==> ((DX(r.value) != 0) <==> Abs(dx) > Abs(dy))
    ensures r.Some? ==> DX(r.value) * dx + DY(r.value) * dy == if Abs(dx) > Abs(dy) then Abs(dx) else Abs(dy)
  {
    if Abs(dx) > Abs(dy) then
      if Abs(dx) > SwipeThreshold then (if dx > 0 then Some(Right) else Some(Left)) else None
    else
      if Abs(dy) > SwipeThreshold then (if dy > 0 then Some(Down) else Some(Up)) else None
  }

  /** A diagonal swipe (|dx| == |dy|) is vertical. */
  lemma SwipeTieIsVertical(dx: int, dy: int)
    requires Abs(dx) == Abs(dy)
    ensures SwipeRequest(dx, dy) != Some(Left) && SwipeRequest(dx, dy) != Some(Right)
  {
  }

  /** Swiping the other way names the opposite heading. */
  lemma SwipeReversed(dx: int, dy: int)
    ensures SwipeRequest(-dx, -dy).Some? == SwipeRequest(dx, dy).Some?
    ensures SwipeRequest(dx, dy).Some? ==> SwipeRequest(-dx, -dy).value == Opposite(SwipeRequest(dx, dy).value)
  {
  }
}
