/**
 * The Magic Circle (game3.py). Six sectors in a ring hold numbers; a
 * click on sector s adds one to it and to its clockwise neighbour. The
 * alternating sum of the sectors never changes, it is 2 at the start and
 * 0 whenever all sectors are equal, so "All equal?" is always answered
 * "No".
 *
 * A click is given as what it hit: the sector under the pointer (when the
 * pointer lies in the circle's square) and the button, if any. The sector
 * lookup from pixel coordinates, the intro and the drawing are not modelled.
 */
module MagicCircle {
  import opened Wire
  import opened Numerals

  const Sectors: nat := 6
  const Signs: seq<int> := [1, -1, 1, -1, 1, -1]

  /** The starting and reset position. */
  const Start: seq<int> := [1, 0, 1, 0, 0, 0]

  /** `increase_neighbors(sector)` on the values `nums`. */
  function Increase(nums: seq<int>, sector: int): (r: seq<int>)
    requires |nums| == Sectors && 0 <= sector < Sectors
    ensures |r| == Sectors
    ensures r[sector] == nums[sector] + 1 && r[(sector + 1) % Sectors] == nums[(sector + 1) % Sectors] + 1
    ensures forall i :: 0 <= i < Sectors && i != sector && i != (sector + 1) % Sectors ==> r[i] == nums[i]
  {
    var next := (sector + 1) % Sectors;
    nums[sector := nums[sector] + 1][next := nums[next] + 1]
  }

  /** `all_equal`: every sector holds the value of sector 0. */
  predicate AllEqual(nums: seq<int>)
  {
    forall i :: 0 <= i < |nums| ==> nums[i] == nums[0]
  }

  /** `compute_invariant`: the sum of `Signs[i] * nums[i]` over the six sectors. */
  function Invariant(nums: seq<int>): int
    requires |nums| == Sectors
  {
    Signs[0] * nums[0] + Signs[1] * nums[1] + Signs[2] * nums[2] +
    Signs[3] * nums[3] + Signs[4] * nums[4] + Signs[5] * nums[5]
  }

  function Total(nums: seq<int>): int
    requires |nums| == Sectors
  {
    nums[0] + nums[1] + nums[2] + nums[3] + nums[4] + nums[5]
  }

  /** Neighbouring sectors carry opposite signs, also across the wrap from 5 to 0. */
  lemma IncreaseKeepsInvariant(nums: seq<int>, sector: int)
    requires |nums| == Sectors && 0 <= sector < Sectors
    ensures Invariant(Increase(nums, sector)) == Invariant(nums)
    ensures Total(Increase(nums, sector)) == Total(nums) + 2
  {
    var r := Increase(nums, sector);
    if sector == 5 {
      assert r == [nums[0] + 1, nums[1], nums[2], nums[3], nums[4], nums[5] + 1];
    }
  }

  lemma StartInvariant()
    ensures Invariant(Start) == 2 && !AllEqual(Start)
  {
    assert Start[1] != Start[0];
  }

  /** The `all_equal` check and the alternating sum: an all-equal ring has invariant 0. */
  lemma AllEqualHasZeroInvariant(nums: seq<int>)
    requires |nums| == Sectors
    ensures AllEqual(nums) <==> nums == seq(Sectors, _ => nums[0])
    ensures AllEqual(nums) ==> Invariant(nums) == 0
  {
    if AllEqual(nums) {
      assert nums == seq(Sectors, _ => nums[0]);
    }
  }

  /** The ring after the clicks on `moves`, in order. */
  function Play(nums: seq<int>, moves: seq<int>): (r: seq<int>)
    requires |nums| == Sectors
    requires forall k :: 0 <= k < |moves| ==> 0 <= moves[k] < Sectors
    ensures |r| == Sectors
    decreases |moves|
  {
    if moves == [] then nums else Play(Increase(nums, moves[0]), moves[1..])
  }

  /** Any sequence of clicks keeps the invariant and raises the total by two per click. */
  lemma {:induction false} PlayKeepsInvariant(nums: seq<int>, moves: seq<int>)
    requires |nums| == Sectors
    requires forall k :: 0 <= k < |moves| ==> 0 <= moves[k] < Sectors
    ensures Invariant(Play(nums, moves)) == Invariant(nums)
    ensures Total(Play(nums, moves)) == Total(nums) + 2 * |moves|
    decreases |moves|
  {
    if moves != [] {
      IncreaseKeepsInvariant(nums, moves[0]);
      PlayKeepsInvariant(Increase(nums, moves[0]), moves[1..]);
    }
  }

  /** From the start or reset position no sequence of clicks makes all sectors equal. */
  lemma NeverAllEqual(moves: seq<int>)
    requires forall k :: 0 <= k < |moves| ==> 0 <= moves[k] < Sectors
    ensures !AllEqual(Play(Start, moves))
  {
    PlayKeepsInvariant(Start, moves);
    StartInvariant();
    AllEqualHasZeroInvariant(Play(Start, moves));
  }

  /** The three buttons on the right. */
  datatype Button = CheckButton | InvariantButton | ResetButton

  class Circle {
    var nums: seq<int>
    /** The last message passed to `show_message`. */
    var message: string

    /** Six sectors whose alternating sum is that of the start position. */
    ghost predicate Valid()
      reads this
    {
      |nums| == Sectors && Invariant(nums) == Invariant(Start)
    }

    constructor ()
      ensures Valid() && nums == Start && message == ""
    {
      nums := Start;
      message := "";
    }

    /** `increase_neighbors` */
    method IncreaseNeighbors(sector: int)
      requires Valid() && 0 <= sector < Sectors
      modifies this`nums
      ensures Valid() && nums == Increase(old(nums), sector)
    {
      nums := nums[sector := nums[sector] + 1];
      nums := nums[(sector + 1) % Sectors := nums[(sector + 1) % Sectors] + 1];
      IncreaseKeepsInvariant(old(nums), sector);
    }

    /** `reset_game` */
    method Reset()
      modifies this`nums
      ensures Valid() && nums == Start
    {
      nums := Start;
    }

    /**
     * One click after the intro: a sector hit in the circle's square gets
     * increased, then the button hit (if any) acts and sets its message.
     */
    method OnClick(sector: Option<int>, button: Option<Button>)
      requires Valid()
      requires sector.Some? ==> 0 <= sector.value < Sectors
      modifies this`nums, this`message
      ensures Valid()
      ensures button == Some(ResetButton) ==> nums == Start && message == "Game Reset"
      ensures button != Some(ResetButton) ==>
        nums == (if sector.Some? then Increase(old(nums), sector.value) else old(nums))
      ensures button == Some(CheckButton) ==> message == "All equal? No"
      ensures button == Some(InvariantButton) ==> message == "Invariant: 2"
      ensures button.None? ==> message == old(message)
    {
      if sector.Some? {
        IncreaseNeighbors(sector.value);
      }
      if button == Some(CheckButton) {
        var allEqual := AllEqual(nums);
        AllEqualHasZeroInvariant(nums);
        StartInvariant();
        message := "All equal? " + if allEqual then "Yes" else "No";
      } else if button == Some(InvariantButton) {
        var inv := Invariant(nums);
        message := "Invariant: " + IntToString(inv);
        StartInvariant();
        assert IntToString(2) == "2";
      } else if button == Some(ResetButton) {
        Reset();
        message := "Game Reset";
      }
    }
  }
}
