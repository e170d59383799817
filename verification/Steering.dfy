/** The input phase: players do not influence each other, and one tick can reverse a snake. */
module Steering {
  import opened Geometry
  import opened SnakeModel
  import opened SnakeInvariant
  import opened GameModel

  // ---- Projection ----------------------------------------------------------------------------

  /** The inputs of one player, in their order. */
  function Own(inputs: seq<PlayerInput>, id: string): seq<PlayerInput>
  {
    if inputs == [] then [] else
      var most := Own(inputs[..|inputs| - 1], id);
      if inputs[|inputs| - 1].playerID == id then most + [inputs[|inputs| - 1]] else most
  }

  /** A single snake under its own inputs. */
  function SteeredBy(s: SnakeState, inputs: seq<PlayerInput>): SnakeState
  {
    if inputs == [] || !s.alive then s else
      Steered(SteeredBy(s, inputs[..|inputs| - 1]), inputs[|inputs| - 1].direction, inputs[|inputs| - 1].boost)
  }

  lemma {:induction false} SteeringIsOnlySteering(s: SnakeState, inputs: seq<PlayerInput>)
    ensures
      var t := SteeredBy(s, inputs);
      t == s.(direction := t.direction, boosting := t.boosting)
  {
    if inputs != [] && s.alive {
      SteeringIsOnlySteering(s, inputs[..|inputs| - 1]);
    }
  }

  /** However the players' inputs interleave, each snake ends as its own inputs alone would leave it. */
  lemma {:induction false} InputProjection(snakes: Roster, inputs: seq<PlayerInput>, id: string)
    requires id in snakes
    ensures SteerAll(snakes, inputs)[id] == SteeredBy(snakes[id], Own(inputs, id))
  {
    if inputs != [] {
      var most, last := inputs[..|inputs| - 1], inputs[|inputs| - 1];
      InputProjection(snakes, most, id);
      SteeringIsOnlySteering(snakes[id], Own(most, id));
      if last.playerID == id {
        assert (Own(most, id) + [last])[..|Own(most, id)|] == Own(most, id);
      }
    }
  }

  /** Two buffers that agree on every player's own inputs have the same effect. */
  lemma InterleavingDoesNotMatter(snakes: Roster, one: seq<PlayerInput>, two: seq<PlayerInput>)
    requires forall id :: id in snakes ==> Own(one, id) == Own(two, id)
    ensures SteerAll(snakes, one) == SteerAll(snakes, two)
  {
    forall id | id in snakes
      ensures SteerAll(snakes, one)[id] == SteerAll(snakes, two)[id]
    {
      InputProjection(snakes, one, id);
      InputProjection(snakes, two, id);
    }
  }

  // ---- Reversal ------------------------------------------------------------------------------

  /** The heading after a list of wanted directions. */
  function HeadingAfter(d: Direction, wanted: seq<Direction>): Direction
  {
    if wanted == [] then d else Turned(HeadingAfter(d, wanted[..|wanted| - 1]), wanted[|wanted| - 1])
  }

  function Wanted(inputs: seq<PlayerInput>): seq<Direction>
  {
    seq(|inputs|, i requires 0 <= i < |inputs| => inputs[i].direction)
  }

  lemma {:induction false} SteeredHeading(s: SnakeState, inputs: seq<PlayerInput>)
    requires s.alive
    ensures SteeredBy(s, inputs).direction == HeadingAfter(s.direction, Wanted(inputs))
  {
    if inputs != [] {
      var most := inputs[..|inputs| - 1];
      SteeredHeading(s, most);
      assert Wanted(inputs)[..|inputs| - 1] == Wanted(most);
    }
  }

  predicate OnAxis(d: Direction, e: Direction)
  {
    e == d || IsOpposite(d, e)
  }

  predicate OffAxis(d: Direction, e: Direction)
  {
    e != Unspecified && !OnAxis(d, e)
  }

  /** The list ends with an off-axis entry, up to unspecified ones. */
  ghost predicate Detour(d: Direction, wanted: seq<Direction>)
  {
    exists i :: 0 <= i < |wanted| && OffAxis(d, wanted[i]) && IdleFrom(wanted, i + 1)
  }

  ghost predicate IdleFrom(wanted: seq<Direction>, from: nat)
  {
    forall k :: from <= k < |wanted| ==> wanted[k] == Unspecified
  }

  /** Somewhere a detour is directly followed by the reverse heading, and no further detour comes. */
  ghost predicate DetourAndBack(d: Direction, wanted: seq<Direction>)
  {
    exists j :: 0 <= j < |wanted| && BackAt(d, wanted, j)
  }

  ghost predicate BackAt(d: Direction, wanted: seq<Direction>, j: nat)
    requires j < |wanted|
  {
    IsOpposite(d, wanted[j]) && Detour(d, wanted[..j]) && StraightFrom(d, wanted, j)
  }

  ghost predicate StraightFrom(d: Direction, wanted: seq<Direction>, from: nat)
  {
    forall k :: from <= k < |wanted| ==> !OffAxis(d, wanted[k])
  }

  lemma DetourGrows(d: Direction, wanted: seq<Direction>)
    requires wanted != []
    ensures
      var most, last := wanted[..|wanted| - 1], wanted[|wanted| - 1];
      Detour(d, wanted) <==> OffAxis(d, last) || (last == Unspecified && Detour(d, most))
  {
    var most, last := wanted[..|wanted| - 1], wanted[|wanted| - 1];
    if OffAxis(d, last) {
      assert IdleFrom(wanted, |wanted|);
    } else {
      if last == Unspecified && Detour(d, most) {
        var i :| 0 <= i < |most| && OffAxis(d, most[i]) && IdleFrom(most, i + 1);
        assert OffAxis(d, wanted[i]) && IdleFrom(wanted, i + 1);
      }
      if Detour(d, wanted) {
        var i :| 0 <= i < |wanted| && OffAxis(d, wanted[i]) && IdleFrom(wanted, i + 1);
        assert i < |most| && OffAxis(d, most[i]) && IdleFrom(most, i + 1);
      }
    }
  }

  lemma BackAtGrows(d: Direction, wanted: seq<Direction>, j: nat)
    requires j < |wanted|
    ensures
      var most, last := wanted[..|wanted| - 1], wanted[|wanted| - 1];
      BackAt(d, wanted, j) <==>
      !OffAxis(d, last) && if j < |most| then BackAt(d, most, j) else IsOpposite(d, last) && Detour(d, most)
  {
    var most := wanted[..|wanted| - 1];
    if j < |most| {
      assert most[..j] == wanted[..j];
      assert StraightFrom(d, wanted, j) <==> StraightFrom(d, most, j) && !OffAxis(d, wanted[|most|]);
    }
  }

  lemma DetourAndBackGrows(d: Direction, wanted: seq<Direction>)
    requires wanted != []
    ensures
      var most, last := wanted[..|wanted| - 1], wanted[|wanted| - 1];
      DetourAndBack(d, wanted) <==>
      !OffAxis(d, last) && (DetourAndBack(d, most) || (IsOpposite(d, last) && Detour(d, most)))
  {
    var most := wanted[..|wanted| - 1];
    BackAtGrows(d, wanted, |most|);
    if DetourAndBack(d, wanted) {
      var j :| 0 <= j < |wanted| && BackAt(d, wanted, j);
      BackAtGrows(d, wanted, j);
      assert j < |most| ==> DetourAndBack(d, most);
    }
    if DetourAndBack(d, most) {
      var j :| 0 <= j < |most| && BackAt(d, most, j);
      BackAtGrows(d, wanted, j);
    }
  }

  /** The reversal guard on a list: the heading ends reversed exactly when a detour off the axis is
      followed by the reverse heading and by no further detour. */
  lemma {:induction false} ReversedExactlyByDetour(d: Direction, wanted: seq<Direction>)
    requires IsHeading(d)
    ensures IsOpposite(d, HeadingAfter(d, wanted)) <==> DetourAndBack(d, wanted)
    ensures OffAxis(d, HeadingAfter(d, wanted)) <==> Detour(d, wanted)
    ensures HeadingAfter(d, wanted) != Unspecified
  {
    if wanted != [] {
      ReversedExactlyByDetour(d, wanted[..|wanted| - 1]);
      DetourGrows(d, wanted);
      DetourAndBackGrows(d, wanted);
    }
  }

  lemma {:induction false} OneMoreAhead(d: Direction, b: Direction, wanted: seq<Direction>)
    requires Turned(d, b) == b
    ensures HeadingAfter(d, [b] + wanted) == HeadingAfter(b, wanted)
  {
    if wanted == [] {
      assert [b] + wanted == [b] && [b][..0] == [];
    } else {
      var most := wanted[..|wanted| - 1];
      OneMoreAhead(d, b, most);
      assert ([b] + wanted)[..|wanted|] == [b] + most;
    }
  }

  /** The reversal guard per tick: draining a buffer turns a living snake against its last real step
      exactly when the direction it has and its player's own inputs, in this order, make a detour and come
      back. Standing still, by an unrecognized direction, is such a detour. */
  lemma TickReversesExactlyByDetour(snakes: Roster, inputs: seq<PlayerInput>, id: string)
    requires id in snakes && snakes[id].alive && Facing(snakes[id])
    ensures
      var d, before := LastHeading(snakes[id].past.moves), snakes[id].direction;
      IsOpposite(d, SteerAll(snakes, inputs)[id].direction) <==>
      DetourAndBack(d, [before] + Wanted(Own(inputs, id)))
    ensures SteerAll(snakes, inputs)[id].direction != Unspecified
  {
    var d, before := LastHeading(snakes[id].past.moves), snakes[id].direction;
    InputProjection(snakes, inputs, id);
    SteeredHeading(snakes[id], Own(inputs, id));
    OneMoreAhead(d, before, Wanted(Own(inputs, id)));
    ReversedExactlyByDetour(d, [before] + Wanted(Own(inputs, id)));
  }

  /** A turn and a turn back drained in one tick reverse a snake heading right, and the next step takes
      its head back over its own body, although each input was allowed. */
  lemma TwoInputsReverse(snakes: Roster, id: string)
    requires id in snakes && snakes[id].alive && snakes[id].direction == Right
    ensures
      var inputs := [PlayerInput(id, Up, false), PlayerInput(id, Left, false)];
      && SteerAll(snakes, inputs)[id].direction == Left
      && NextHead(SteerAll(snakes, inputs)[id]) == Vec2(Head(snakes[id]).x - snakes[id].speed, Head(snakes[id]).y)
  {
    var up, left := PlayerInput(id, Up, false), PlayerInput(id, Left, false);
    assert [up, left][..1] == [up];
    assert SteerAll(snakes, [up]) == SteerOne(snakes, up);
    assert SteerAll(snakes, [up, left]) == SteerOne(SteerOne(snakes, up), left);
  }
}
