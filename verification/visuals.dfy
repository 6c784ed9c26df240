/** The per-frame visual state of the three selectable choices.

    Each choice is a box in the 3D scene with a name, a hover flag, a scale
    vector, a rotation vector and a position. Every frame the animation loop
    spins every choice and moves its scale toward 1.3 while it is hovered and
    back toward 1.0 when it is not; every pointer move clears the hover flag
    on all choices and sets it on the first object the ray hits.

    Numbers are Dafny `real`s rather than IEEE doubles. The ray cast is an
    input: the objects it hits, nearest first, as indices into the list of
    choices (the scene holds exactly the three choices, in list order).
 */
module Visuals {
  import opened Outcome

  datatype Vec3 = Vec3(x: real, y: real, z: real)

  /** A selectable choice with its visual state. */
  datatype Choice = Choice(name: Name, hovered: bool, scale: Vec3, rotation: Vec3, position: Vec3)

  /** Angular speed of the spin, in radians per second. */
  const RotationSpeed: real := 1.3
  /** Rate at which the scale moves toward its target, per second. */
  const ScaleSpeed: real := 3.0
  /** Scale a hovered choice grows to. */
  const HoverScale: real := 1.3
  /** Scale a choice shrinks back to when not hovered. */
  const RestScale: real := 1.0
  /** Shortest frame that always brings an in-range scale to its target:
      (HoverScale - RestScale) / ScaleSpeed. */
  const SettleTime: real := 0.1

  function Min(a: real, b: real): real { if a <= b then a else b }
  function Max(a: real, b: real): real { if a >= b then a else b }

  /** The scale is uniform and lies between the rest and the hover scale. */
  predicate Valid(c: Choice) {
    && c.scale.x == c.scale.y == c.scale.z
    && RestScale <= c.scale.x <= HoverScale
  }

  predicate AllValid(cs: seq<Choice>) {
    forall i :: 0 <= i < |cs| ==> Valid(cs[i])
  }

  predicate AtMostOneHovered(cs: seq<Choice>) {
    forall i, j :: 0 <= i < |cs| && 0 <= j < |cs| && cs[i].hovered && cs[j].hovered ==> i == j
  }

  /** Indices of the hovered choices. */
  function HoveredIndices(cs: seq<Choice>): set<nat> {
    set i: nat | i < |cs| && cs[i].hovered
  }

  /** The `Choice` constructor. The two `Math.random()` draws that set the
      initial spin are the parameters `u` and `v`; the scale starts at the
      scene library's default of one and the position at the origin. */
  function NewChoice(name: Name, u: real, v: real): (c: Choice)
    ensures c.name == name && !c.hovered && Valid(c)
    ensures c.scale.x == RestScale
    ensures 0.0 <= u < 1.0 && 0.0 <= v < 1.0 ==>
              0.0 <= c.rotation.x < 3.0 && 0.0 <= c.rotation.y < 3.0
    ensures c.rotation.z == 0.0 && c.position == Vec3(0.0, 0.0, 0.0)
  {
    Choice(name, false, Vec3(1.0, 1.0, 1.0), Vec3(0.0 + u * 3.0, 0.0 + v * 3.0, 0.0), Vec3(0.0, 0.0, 0.0))
  }

  /** The scene at start-up: rock on the left at x = -3, paper in the middle,
      scissors on the right at x = 3, nothing hovered, each with its own pair
      of random draws. */
  function InitialChoices(draws: seq<(real, real)>): (cs: seq<Choice>)
    requires |draws| == 3
    ensures |cs| == 3
    ensures cs[0].name == Rock && cs[1].name == Paper && cs[2].name == Scissors
    ensures cs[0].position.x == -3.0 && cs[1].position.x == 0.0 && cs[2].position.x == 3.0
    ensures AllValid(cs) && HoveredIndices(cs) == {}
  {
    var rock := NewChoice(Rock, draws[0].0, draws[0].1);
    var paper := NewChoice(Paper, draws[1].0, draws[1].1);
    var scissors := NewChoice(Scissors, draws[2].0, draws[2].1);
    var cs := [rock.(position := rock.position.(x := -3.0)), paper,
               scissors.(position := scissors.position.(x := 3.0))];
    assert forall i :: 0 <= i < 3 ==> !cs[i].hovered;
    cs
  }

  /** `rotate`: spin about x and y by the same angle, speed times elapsed time. */
  function Rotate(c: Choice, deltaTime: real): (r: Choice)
    ensures r.rotation.x - c.rotation.x == RotationSpeed * deltaTime
    ensures r.rotation.y - c.rotation.y == RotationSpeed * deltaTime
    ensures r.rotation.z == c.rotation.z
    ensures r.(rotation := c.rotation) == c
  {
    var angle := RotationSpeed * deltaTime;
    c.(rotation := c.rotation.(x := c.rotation.x + angle, y := c.rotation.y + angle))
  }

  /** Two spins in a row are one spin over the combined time. */
  lemma RotateAdditive(c: Choice, a: real, b: real)
    ensures Rotate(Rotate(c, a), b) == Rotate(c, a + b)
  {
    var r1 := Rotate(Rotate(c, a), b);
    var r2 := Rotate(c, a + b);
    assert r1.rotation.x == r2.rotation.x;
    assert r1.rotation.y == r2.rotation.y;
  }

  /** How far the x scale still has to travel to the target its hover flag
      sets: up to the hover scale, or down to the rest scale. */
  function DistanceToTarget(c: Choice): real {
    if c.hovered then HoverScale - c.scale.x else c.scale.x - RestScale
  }

  /** `updateScale`: read the x scale, step it toward the hover scale while
      hovered (clamped from above) or toward the rest scale otherwise (clamped
      from below), then write it to all three axes. A scale already at or
      beyond its target is left alone. */
  function UpdateScale(c: Choice, deltaTime: real): (r: Choice)
    ensures r.scale.x == r.scale.y == r.scale.z
    ensures r.(scale := c.scale) == c
    ensures RestScale <= c.scale.x <= HoverScale && deltaTime >= 0.0 ==>
              DistanceToTarget(r) == Max(0.0, DistanceToTarget(c) - ScaleSpeed * deltaTime)
  {
    var s := c.scale.x;
    var s' :=
      if c.hovered then
        (if s < HoverScale then Min(HoverScale, s + ScaleSpeed * deltaTime) else s)
      else if s > RestScale then Max(RestScale, s - ScaleSpeed * deltaTime)
      else s;
    c.(scale := Vec3(s', s', s'))
  }

  /** Bounds: a scale in [1, 1.3] stays there for any non-negative frame time. */
  lemma ScaleStaysInRange(c: Choice, deltaTime: real)
    requires RestScale <= c.scale.x <= HoverScale
    requires deltaTime >= 0.0
    ensures RestScale <= UpdateScale(c, deltaTime).scale.x <= HoverScale
    ensures Valid(UpdateScale(c, deltaTime))
  {
  }

  /** Monotonicity: a hovered choice never shrinks, an unhovered one never
      grows, and no frame moves the scale by more than speed times time. */
  lemma ScaleMonotone(c: Choice, deltaTime: real)
    requires deltaTime >= 0.0
    ensures c.hovered ==> UpdateScale(c, deltaTime).scale.x >= c.scale.x
    ensures !c.hovered ==> UpdateScale(c, deltaTime).scale.x <= c.scale.x
    ensures -ScaleSpeed * deltaTime <= UpdateScale(c, deltaTime).scale.x - c.scale.x <= ScaleSpeed * deltaTime
  {
  }

  /** Fixpoints: a hovered choice at 1.3 and an unhovered one at 1 keep their
      scale, and a zero-length frame changes no scale. */
  lemma ScaleFixpoints(c: Choice, deltaTime: real)
    ensures c.hovered && c.scale.x == HoverScale ==> UpdateScale(c, deltaTime).scale.x == HoverScale
    ensures !c.hovered && c.scale.x == RestScale ==> UpdateScale(c, deltaTime).scale.x == RestScale
    ensures deltaTime == 0.0 ==> UpdateScale(c, deltaTime).scale.x == c.scale.x
    ensures deltaTime == 0.0 && Valid(c) ==> UpdateScale(c, deltaTime) == c
  {
  }

  /** The clamp works in one direction only: a hovered choice above 1.3 and an
      unhovered one below 1 are not pulled back into range. */
  lemma ScaleNotPulledBack(c: Choice, deltaTime: real)
    ensures c.hovered && c.scale.x > HoverScale ==> UpdateScale(c, deltaTime).scale.x == c.scale.x
    ensures !c.hovered && c.scale.x < RestScale ==> UpdateScale(c, deltaTime).scale.x == c.scale.x
  {
  }

  /** One frame of the animation loop for one choice: spin, then rescale. */
  function Tick(c: Choice, deltaTime: real): Choice {
    UpdateScale(Rotate(c, deltaTime), deltaTime)
  }

  /** Spinning and rescaling touch disjoint fields, so their order in the
      loop body does not matter. */
  lemma RotateScaleCommute(c: Choice, deltaTime: real)
    ensures Tick(c, deltaTime) == Rotate(UpdateScale(c, deltaTime), deltaTime)
  {
  }

  /** A frame at least `SettleTime` long brings a choice in range all the way
      to its target: 1.3 if hovered, 1 if not. */
  lemma LongFrameSettles(c: Choice, deltaTime: real)
    requires Valid(c)
    requires deltaTime >= SettleTime
    ensures Tick(c, deltaTime).scale.x == (if c.hovered then HoverScale else RestScale)
  {
  }

  /** `updateStats`: every choice is spun and rescaled, in place; the list
      keeps its length and order and nothing else changes. */
  function UpdateStats(cs: seq<Choice>, deltaTime: real): (r: seq<Choice>)
    ensures |r| == |cs|
    ensures forall i :: 0 <= i < |cs| ==> r[i] == Tick(cs[i], deltaTime)
  {
    if |cs| == 0 then []
    else [Tick(cs[0], deltaTime)] + UpdateStats(cs[1..], deltaTime)
  }

  /** A frame keeps every choice's name, position and hover flag, and keeps
      every scale in range when the frame time is non-negative. */
  lemma UpdateStatsPreserves(cs: seq<Choice>, deltaTime: real)
    requires deltaTime >= 0.0
    ensures AllValid(cs) ==> AllValid(UpdateStats(cs, deltaTime))
    ensures forall i :: 0 <= i < |cs| ==>
              && UpdateStats(cs, deltaTime)[i].name == cs[i].name
              && UpdateStats(cs, deltaTime)[i].position == cs[i].position
              && UpdateStats(cs, deltaTime)[i].hovered == cs[i].hovered
  {
    var r := UpdateStats(cs, deltaTime);
    forall i | 0 <= i < |cs|
      ensures Valid(cs[i]) ==> Valid(r[i])
    {
      if Valid(cs[i]) {
        ScaleStaysInRange(Rotate(cs[i], deltaTime), deltaTime);
      }
    }
  }

  /** The first loop of `mouseMove`: clear the hover flag on every choice. */
  function ClearHover(cs: seq<Choice>): (r: seq<Choice>)
    ensures |r| == |cs|
    ensures forall i :: 0 <= i < |cs| ==> !r[i].hovered && r[i].(hovered := cs[i].hovered) == cs[i]
  {
    if |cs| == 0 then []
    else [cs[0].(hovered := false)] + ClearHover(cs[1..])
  }

  /** `mouseMove`: clear every hover flag, then set it on the nearest hit. A
      hit on an index that is not a choice marks nothing. */
  function MouseMove(cs: seq<Choice>, hits: seq<nat>): (r: seq<Choice>)
    ensures |r| == |cs|
    ensures forall i :: 0 <= i < |cs| ==> r[i].(hovered := cs[i].hovered) == cs[i]
    ensures forall i :: 0 <= i < |cs| ==> (r[i].hovered <==> |hits| > 0 && hits[0] == i)
  {
    var cleared := ClearHover(cs);
    if |hits| > 0 && hits[0] < |cs| then
      cleared[hits[0] := cleared[hits[0]].(hovered := true)]
    else cleared
  }

  /** Hover exclusivity: after a pointer move the hovered set is the nearest
      hit alone, or empty when the ray hits nothing. */
  lemma MouseMoveHoversFirstHit(cs: seq<Choice>, hits: seq<nat>)
    ensures HoveredIndices(MouseMove(cs, hits)) ==
              (if |hits| > 0 && hits[0] < |cs| then {hits[0]} else {})
    ensures AtMostOneHovered(MouseMove(cs, hits))
  {
    var r := MouseMove(cs, hits);
    var expected: set<nat> := if |hits| > 0 && hits[0] < |cs| then {hits[0]} else {};
    forall i: nat
      ensures i in HoveredIndices(r) <==> i in expected
    {
      if i < |cs| {
        assert r[i].hovered <==> |hits| > 0 && hits[0] == i;
      }
    }
  }

  /** What reaches the scene: a pointer move with its ray-cast hits, or an
      animation frame with the time elapsed since the previous one. */
  datatype Event = PointerMove(hits: seq<nat>) | Frame(deltaTime: real)

  function Step(cs: seq<Choice>, e: Event): seq<Choice> {
    match e
    case PointerMove(hits) => MouseMove(cs, hits)
    case Frame(dt) => UpdateStats(cs, dt)
  }

  /** The event loop: the events applied in order. */
  function Run(cs: seq<Choice>, events: seq<Event>): seq<Choice>
    decreases |events|
  {
    if |events| == 0 then cs else Run(Step(cs, events[0]), events[1..])
  }

  /** The clock never runs backwards. */
  predicate ForwardFrames(events: seq<Event>) {
    forall k :: 0 <= k < |events| ==> (events[k].Frame? ==> events[k].deltaTime >= 0.0)
  }

  /** Over any run of pointer moves and forward frames: the choices keep
      their number, names and positions, every scale stays uniform and in
      [1, 1.3], and at most one choice is hovered at a time. */
  lemma {:induction false} RunPreservesInvariants(cs: seq<Choice>, events: seq<Event>)
    requires AllValid(cs) && AtMostOneHovered(cs)
    requires ForwardFrames(events)
    ensures |Run(cs, events)| == |cs|
    ensures forall i :: 0 <= i < |cs| ==>
              Run(cs, events)[i].name == cs[i].name && Run(cs, events)[i].position == cs[i].position
    ensures AllValid(Run(cs, events)) && AtMostOneHovered(Run(cs, events))
    decreases |events|
  {
    if |events| > 0 {
      var next := Step(cs, events[0]);
      match events[0] {
        case PointerMove(hits) =>
          MouseMoveHoversFirstHit(cs, hits);
        case Frame(dt) =>
          assert events[0].deltaTime >= 0.0;
          UpdateStatsPreserves(cs, dt);
      }
      assert ForwardFrames(events[1..]) by {
        forall k | 0 <= k < |events[1..]|
          ensures events[1..][k].Frame? ==> events[1..][k].deltaTime >= 0.0
        {
          assert events[1..][k] == events[k + 1];
        }
      }
      RunPreservesInvariants(next, events[1..]);
    }
  }

  /** From start-up, whatever the random spins and whatever the player does
      with the pointer, no scale ever leaves [1, 1.3] and never more than one
      choice is hovered. */
  lemma GameKeepsInvariants(draws: seq<(real, real)>, events: seq<Event>)
    requires |draws| == 3
    requires ForwardFrames(events)
    ensures |Run(InitialChoices(draws), events)| == 3
    ensures AllValid(Run(InitialChoices(draws), events))
    ensures AtMostOneHovered(Run(InitialChoices(draws), events))
  {
    var cs := InitialChoices(draws);
    assert AtMostOneHovered(cs) by {
      forall i | 0 <= i < |cs|
        ensures !cs[i].hovered
      {
        assert i !in HoveredIndices(cs);
      }
    }
    RunPreservesInvariants(cs, events);
  }
}
