/**
 * Even Hunt (game2.py). The numbers 1 .. 2n are laid out on a grid; a
 * move selects two of them and replaces them by their absolute
 * difference, until one number is left. Each move lowers the sum by twice
 * the smaller number, so the sum's parity never changes and the last
 * number has the parity of n(2n + 1), that of n: odd for every n the
 * dialog accepts.
 *
 * A click is given as what it hit: the index of the number button under
 * the pointer, if any, and whether it lies on the replace and restart
 * buttons. Pixel coordinates, the intro and the drawing are not modelled.
 */
module EvenHunt {
  import opened Wire

  /** What `get_odd_n` accepts from the dialog (`None`: the dialog was cancelled). */
  predicate Accepts(answer: Option<int>)
  {
    // Python's % and Dafny's agree for a positive divisor
    answer.Some? && answer.value % 2 == 1 && answer.value > 0
  }

  /**
   * `get_odd_n` over the dialog's successive answers: the first accepted
   * one. `None`: the answers ran out first, where the source keeps asking.
   */
  method GetOddN(answers: seq<Option<int>>) returns (n: Option<int>)
    ensures n.None? <==> forall k :: 0 <= k < |answers| ==> !Accepts(answers[k])
    ensures n.Some? ==> Accepts(n) && n.value > 0 && n.value % 2 == 1
    ensures n.Some? ==>
      exists k :: 0 <= k < |answers| && answers[k] == n && (forall m :: 0 <= m < k ==> !Accepts(answers[m]))
  {
    var k := 0;
    while k < |answers|
      invariant 0 <= k <= |answers|
      invariant forall m :: 0 <= m < k ==> !Accepts(answers[m])
    {
      if Accepts(answers[k]) {
        return answers[k];
      }
      k := k + 1;
    }
    return None;
  }

  function Min(a: int, b: int): int
  {
    if a <= b then a else b
  }

  function Max(a: int, b: int): int
  {
    if a <= b then b else a
  }

  function Abs(x: int): int
  {
    if x < 0 then -x else x
  }

  const MaxCols: int := 8

  /** `cols`: at most eight columns. */
  function Cols(n: int): int
  {
    Min(MaxCols, 2 * n)
  }

  /** `rows`: enough rows for 2n buttons. */
  function GridRows(n: int): int
    requires n > 0
  {
    (2 * n + Cols(n) - 1) / Cols(n)
  }

  /** Every one of the 2n starting positions falls inside the grid. */
  lemma LayoutFits(n: int, i: int)
    requires n > 0 && 0 <= i < 2 * n
    ensures 0 <= i / Cols(n) < GridRows(n)
    ensures 0 <= i % Cols(n) < Cols(n)
  {
    if 2 * n <= MaxCols {
      assert Cols(n) == 2 * n;
      assert GridRows(n) == 1;
    } else {
      assert Cols(n) == 8;
      assert (i + 8) / 8 == i / 8 + 1;
    }
  }

  /**
   * Different positions get different cells, so the buttons' rectangles
   * never coincide: a click hits at most one number, and comparing the
   * button dictionaries by value (`btn in selected`, `index`) is comparing
   * positions.
   */
  lemma CellsDistinct(i: int, j: int, cols: int)
    requires cols > 0 && 0 <= i && 0 <= j && i != j
    ensures i / cols != j / cols || i % cols != j % cols
  {
  }

  /** One number button: its value and its grid cell (the rectangle drawn there). */
  datatype Button = Button(value: int, row: int, col: int)

  function Values(buttons: seq<Button>): seq<int>
  {
    seq(|buttons|, i requires 0 <= i < |buttons| => buttons[i].value)
  }

  function Sum(s: seq<int>): int
  {
    if s == [] then 0 else Sum(s[..|s| - 1]) + s[|s| - 1]
  }

  lemma {:induction false} SumConcat(a: seq<int>, b: seq<int>)
    ensures Sum(a + b) == Sum(a) + Sum(b)
    decreases |b|
  {
    if b == [] {
      assert a + b == a;
    } else {
      assert (a + b)[..|a + b| - 1] == a + b[..|b| - 1];
      SumConcat(a, b[..|b| - 1]);
    }
  }

  lemma SumUpdate(s: seq<int>, k: int, v: int)
    requires 0 <= k < |s|
    ensures Sum(s[k := v]) == Sum(s) - s[k] + v
  {
    SumSplit(s, k);
    SumSplit(s[k := v], k);
    assert s[k := v][..k] == s[..k] && s[k := v][k + 1..] == s[k + 1..];
  }

  lemma SumRemove(s: seq<int>, k: int)
    requires 0 <= k < |s|
    ensures Sum(s[..k] + s[k + 1..]) == Sum(s) - s[k]
  {
    SumSplit(s, k);
    SumConcat(s[..k], s[k + 1..]);
  }

  lemma SumSplit(s: seq<int>, k: int)
    requires 0 <= k < |s|
    ensures Sum(s) == Sum(s[..k]) + s[k] + Sum(s[k + 1..])
  {
    assert s == s[..k] + [s[k]] + s[k + 1..];
    SumConcat(s[..k] + [s[k]], s[k + 1..]);
    SumConcat(s[..k], [s[k]]);
    assert [s[k]][..0] == [];
  }

  /**
   * A replacement: the values `vals[i]` and `vals[j]` give way to their
   * absolute difference at the lower of the two positions, and the higher
   * position is removed; everything else keeps its order.
   */
  function Combine(vals: seq<int>, i: int, j: int): (r: seq<int>)
    requires 0 <= i < |vals| && 0 <= j < |vals| && i != j
    ensures |r| == |vals| - 1
  {
    Splice(vals, Min(i, j), Max(i, j), Abs(vals[i] - vals[j]))
  }

  /** `vals` with `d` written at `lo` and position `hi` removed. */
  function Splice(vals: seq<int>, lo: int, hi: int, d: int): (r: seq<int>)
    requires 0 <= lo < hi < |vals|
    ensures |r| == |vals| - 1
  {
    vals[lo := d][..hi] + vals[lo := d][hi + 1..]
  }

  /** A replacement lowers the sum by twice the smaller value, so its parity is kept. */
  lemma CombineSum(vals: seq<int>, i: int, j: int)
    requires 0 <= i < |vals| && 0 <= j < |vals| && i != j
    ensures Sum(Combine(vals, i, j)) == Sum(vals) - 2 * Min(vals[i], vals[j])
  {
    var d := Abs(vals[i] - vals[j]);
    DifferenceIdentity(vals[i], vals[j]);
    SumReplaceAndRemove(vals, Min(i, j), Max(i, j), d);
  }

  /** Writing `d` at `lo` and then removing `hi` changes the sum by `d - vals[lo] - vals[hi]`. */
  lemma SumReplaceAndRemove(vals: seq<int>, lo: int, hi: int, d: int)
    requires 0 <= lo < hi < |vals|
    ensures Sum(Splice(vals, lo, hi, d)) == Sum(vals) - vals[lo] + d - vals[hi]
  {
    var kept := vals[lo := d];
    SumUpdate(vals, lo, d);
    SumRemove(kept, hi);
    assert kept[hi] == vals[hi];
  }

  lemma DifferenceIdentity(a: int, b: int)
    ensures a + b - Abs(a - b) == 2 * Min(a, b)
  {
  }

  lemma EvenStepKeepsParity(x: int, m: int)
    ensures (x - 2 * m) % 2 == x % 2
  {
  }

  /** A replacement keeps every value within [0, bound]. */
  lemma CombineBounds(vals: seq<int>, i: int, j: int, bound: int)
    requires 0 <= i < |vals| && 0 <= j < |vals| && i != j
    requires forall k :: 0 <= k < |vals| ==> 0 <= vals[k] <= bound
    ensures forall k :: 0 <= k < |vals| - 1 ==> 0 <= Combine(vals, i, j)[k] <= bound
  {
    var kept := vals[Min(i, j) := Abs(vals[i] - vals[j])];
    assert forall k :: 0 <= k < |kept| ==> 0 <= kept[k] <= bound;
  }

  predicate Distinct(s: seq<int>)
  {
    forall a, b :: 0 <= a < b < |s| ==> s[a] != s[b]
  }

  /** `list.remove`: the first occurrence of `x` goes. */
  function RemoveFirst(s: seq<int>, x: int): (r: seq<int>)
    ensures x in s ==> |r| == |s| - 1
    ensures x !in s ==> r == s
    ensures Distinct(s) ==> Distinct(r) && forall y :: y in r <==> y in s && y != x
  {
    if s == [] then []
    else if s[0] == x then s[1..]
    else
      var rest := RemoveFirst(s[1..], x);
      assert Distinct(s) ==> s[0] !in s[1..];
      [s[0]] + rest
  }

  /** The selection after a click on button `i`: a selected button leaves it, another joins while fewer than two are selected. */
  function Toggled(selected: seq<int>, i: int): seq<int>
  {
    if i in selected then RemoveFirst(selected, i)
    else if |selected| < 2 then selected + [i]
    else selected
  }

  /** A second click on a button just selected undoes the first. */
  lemma {:induction false} ToggleTwice(selected: seq<int>, i: int)
    requires i !in selected && |selected| < 2
    ensures Toggled(Toggled(selected, i), i) == selected
  {
    if selected != [] {
      assert selected == [selected[0]];
      assert selected + [i] == [selected[0], i];
      assert [selected[0], i][1..] == [i];
    }
  }

  /**
   * The starting table: buttons 1 .. 2n, the k-th at row k / cols and
   * column k % cols; their sum is n(2n + 1).
   */
  method Deal(n: int, cols: int) returns (buttons: seq<Button>)
    requires n > 0 && cols > 0
    ensures |buttons| == 2 * n
    ensures forall k :: 0 <= k < |buttons| ==> buttons[k] == Button(k + 1, k / cols, k % cols)
    ensures Sum(Values(buttons)) == Total(2 * n)
  {
    buttons := [];
    for i := 0 to 2 * n
      invariant |buttons| == i
      invariant forall k :: 0 <= k < i ==> buttons[k] == Button(k + 1, k / cols, k % cols)
      invariant Sum(Values(buttons)) == Total(i)
    {
      var next := buttons + [Button(i + 1, i / cols, i % cols)];
      assert Values(next) == Values(buttons) + [i + 1];
      assert Values(next)[..i] == Values(buttons);
      buttons := next;
    }
  }

  /** The values of the buttons after `Replace` edits the list are `Combine` of the values before. */
  lemma ReplacedValues(buttons: seq<Button>, i: int, j: int)
    requires 0 <= i < |buttons| && 0 <= j < |buttons| && i != j
    ensures
      var kept := buttons[Min(i, j) := buttons[Min(i, j)].(value := Abs(buttons[i].value - buttons[j].value))];
      Values(kept[..Max(i, j)] + kept[Max(i, j) + 1..]) == Combine(Values(buttons), i, j)
  {
    var vals := Values(buttons);
    var kept := buttons[Min(i, j) := buttons[Min(i, j)].(value := Abs(buttons[i].value - buttons[j].value))];
    assert Values(kept) == vals[Min(i, j) := Abs(vals[i] - vals[j])];
  }

  /** The re-layout loop: the k-th button moves to row k / cols, column k % cols; values are untouched. */
  method Relayout(buttons: seq<Button>, cols: int) returns (laid: seq<Button>)
    requires cols > 0
    ensures Values(laid) == Values(buttons)
    ensures forall k :: 0 <= k < |laid| ==> laid[k].row == k / cols && laid[k].col == k % cols
  {
    laid := buttons;
    for k := 0 to |laid|
      invariant |laid| == |buttons|
      invariant Values(laid) == Values(buttons)
      invariant forall m :: 0 <= m < k ==> laid[m].row == m / cols && laid[m].col == m % cols
    {
      laid := laid[k := laid[k].(row := k / cols, col := k % cols)];
    }
  }

  /**
   * What holds of the number buttons throughout a game of size n: one to
   * 2n of them, each in the cell of its position, values within [0, 2n],
   * and a sum with the parity of n.
   */
  ghost predicate Table(n: int, cols: int, buttons: seq<Button>)
    requires cols > 0
  {
    && 1 <= |buttons| <= 2 * n
    && (forall i :: 0 <= i < |buttons| ==> buttons[i].row == i / cols && buttons[i].col == i % cols)
    && (forall i :: 0 <= i < |buttons| ==> 0 <= buttons[i].value <= 2 * n)
    && Sum(Values(buttons)) % 2 == n % 2
  }

  /** A replacement followed by the re-layout keeps the table well formed. */
  lemma ReplaceKeepsTable(n: int, cols: int, buttons: seq<Button>, laid: seq<Button>, i: int, j: int)
    requires cols > 0 && Table(n, cols, buttons)
    requires 0 <= i < |buttons| && 0 <= j < |buttons| && i != j
    requires Values(laid) == Combine(Values(buttons), i, j)
    requires forall k :: 0 <= k < |laid| ==> laid[k].row == k / cols && laid[k].col == k % cols
    ensures Table(n, cols, laid)
    ensures Sum(Values(laid)) == Sum(Values(buttons)) - 2 * Min(buttons[i].value, buttons[j].value)
  {
    var vals := Values(buttons);
    var combined := Combine(vals, i, j);
    CombineSum(vals, i, j);
    EvenStepKeepsParity(Sum(vals), Min(vals[i], vals[j]));
    CombineBounds(vals, i, j, 2 * n);
    assert forall k :: 0 <= k < |laid| ==> laid[k].value == combined[k];
  }

  /** 1 + 2 + ... + m */
  function Total(m: nat): nat
  {
    if m == 0 then 0 else Total(m - 1) + m
  }

  /** 1 + 2 + ... + 2n has the parity of n. */
  lemma {:induction false} StartParity(n: nat)
    ensures Total(2 * n) % 2 == n % 2
  {
    if n > 0 {
      StartParity(n - 1);
      var previous := Total(2 * n - 2);
      assert Total(2 * n - 1) == previous + 2 * n - 1;
      assert Total(2 * n) == previous + 2 * (2 * n - 1) + 1;
      assert (previous + 2 * (2 * n - 1) + 1) % 2 == (previous + 1) % 2;
    }
  }

  class Game {
    const n: int
    const cols: int
    const rows: int
    var buttons: seq<Button>
    /** Positions in `buttons` of the selected numbers, in selection order. */
    var selected: seq<int>
    var gameDone: bool

    /**
     * Each button sits in the cell of its position; values stay within
     * [0, 2n] and their sum keeps the parity of n; at most two distinct
     * buttons are selected; the game is done exactly when one number is left.
     */
    ghost predicate Valid()
      reads this
    {
      && n > 0
      && cols == Cols(n) && rows == GridRows(n)
      && Table(n, cols, buttons)
      && |selected| <= 2 && Distinct(selected)
      && (forall k :: 0 <= k < |selected| ==> 0 <= selected[k] < |buttons|)
      && (gameDone <==> |buttons| == 1)
    }

    /** `run_game(n)` up to its event loop. */
    constructor (n: int)
      requires n > 0
      ensures Valid() && this.n == n
      ensures |buttons| == 2 * n && (forall k :: 0 <= k < |buttons| ==> buttons[k].value == k + 1)
      ensures selected == [] && !gameDone
    {
      this.n := n;
      cols := Cols(n);
      rows := GridRows(n);
      var dealt := Deal(n, Cols(n));
      buttons := dealt;
      selected := [];
      gameDone := false;
      new;
      StartParity(n);
    }

    /** A click on number button `i` while the game runs. */
    method Toggle(i: int)
      requires Valid() && 0 <= i < |buttons|
      modifies this`selected
      ensures Valid()
      ensures selected == Toggled(old(selected), i)
    {
      if i in selected {
        selected := RemoveFirst(selected, i);
      } else if |selected| < 2 {
        selected := selected + [i];
      }
    }

    /**
     * The replace button with two numbers selected: their difference takes
     * the lower position, the higher one is removed, the grid is laid out
     * again and the game is done once a single number is left.
     */
    method Replace()
      requires Valid() && |selected| == 2
      modifies this`buttons, this`selected, this`gameDone
      ensures Valid() && selected == []
      ensures Values(buttons) == Combine(old(Values(buttons)), old(selected[0]), old(selected[1]))
      ensures Sum(Values(buttons)) == old(Sum(Values(buttons))) - 2 * Min(old(buttons[selected[0]].value), old(buttons[selected[1]].value))
    {
      var index1, index2 := selected[0], selected[1];
      var a, b := buttons[index1].value, buttons[index2].value;
      var diff := Abs(a - b);
      var keepIndex, removeIndex := Min(index1, index2), Max(index1, index2);
      var kept := buttons[keepIndex := buttons[keepIndex].(value := diff)];
      var remaining := kept[..removeIndex] + kept[removeIndex + 1..];
      ghost var vals := Values(buttons);
      ReplacedValues(buttons, index1, index2);
      selected := [];
      var laid := Relayout(remaining, cols);
      ReplaceKeepsTable(n, cols, buttons, laid, index1, index2);
      buttons := laid;
      if |buttons| == 1 {
        gameDone := true;
      }
    }

    /** The restart button once the game is done: `run_game(n, skip_intro=True)` starts over. */
    method Restart()
      requires Valid()
      modifies this`buttons, this`selected, this`gameDone
      ensures Valid()
      ensures |buttons| == 2 * n && (forall k :: 0 <= k < |buttons| ==> buttons[k].value == k + 1)
      ensures selected == [] && !gameDone
    {
      var dealt := Deal(n, cols);
      buttons := dealt;
      selected := [];
      gameDone := false;
      StartParity(n);
    }

    /**
     * One mouse click. While the game runs, the number under the pointer
     * (if any) is toggled, then the replace button acts if it was hit and
     * two numbers are selected; once done, only the restart button acts.
     */
    method OnClick(hit: Option<int>, onReplace: bool, onRestart: bool)
      requires Valid()
      modifies this`buttons, this`selected, this`gameDone
      ensures Valid()
      ensures old(gameDone) && !onRestart ==> buttons == old(buttons) && selected == old(selected) && gameDone
      ensures old(gameDone) && onRestart ==>
        && |buttons| == 2 * n && (forall k :: 0 <= k < |buttons| ==> buttons[k].value == k + 1)
        && selected == [] && !gameDone
      ensures !old(gameDone) ==>
        var s := if hit.Some? && 0 <= hit.value < old(|buttons|) then Toggled(old(selected), hit.value) else old(selected);
        if onReplace && |s| == 2
        then Values(buttons) == Combine(old(Values(buttons)), s[0], s[1]) && selected == []
        else buttons == old(buttons) && selected == s && !gameDone
    {
      if !gameDone {
        if hit.Some? && 0 <= hit.value < |buttons| {
          Toggle(hit.value);
        }
        if onReplace && |selected| == 2 {
          Replace();
        }
      } else if onRestart {
        Restart();
      }
    }

    /** The announced result once one number is left: it has the parity of n, so it is odd. */
    method FinalValue() returns (v: int)
      requires Valid() && gameDone
      ensures v == buttons[0].value
      ensures v % 2 == n % 2 && 0 <= v <= 2 * n
      ensures n % 2 == 1 ==> v % 2 == 1
    {
      v := buttons[0].value;
      assert Values(buttons) == [v];
      assert [v][..0] == [];
      assert Sum([v]) == v;
    }
  }
}
