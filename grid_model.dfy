/**
 * The grid game's model: nine click counters, each cycled through 0..4 by a
 * click, and the text and tile a card shows for its counter.
 */
module GridModel {
  import opened Exceptions

  /** The five card tiles (drawable resources). */
  datatype Tile = TileKnight | TileBuilder | TileDoctor | TileProfessor | TileBackground3

  const Dim: nat := 3
  /** A click cycles a counter through this many values. */
  const Cycle: nat := 5

  /** The text a card shows for a counter. */
  function CardText(count: int): (text: string)
    ensures text == "O" <==> count == 1 || count == 3
    ensures text == "X" <==> count == 2 || count == 4
    ensures text != "" <==> 1 <= count <= 4
  {
    match count
    case 1 | 3 => "O"
    case 2 | 4 => "X"
    case _ => ""
  }

  /** The tile a card shows for a counter. */
  function CardImage(count: int): (tile: Tile)
    ensures tile == TileKnight <==> count == 1
    ensures tile == TileBuilder <==> count == 2
    ensures tile == TileDoctor <==> count == 3
    ensures tile == TileProfessor <==> count == 4
    ensures tile == TileBackground3 <==> !(1 <= count <= 4)
  {
    match count
    case 1 => TileKnight
    case 2 => TileBuilder
    case 3 => TileDoctor
    case 4 => TileProfessor
    case _ => TileBackground3
  }

  /** The five counter values show five different tiles. */
  lemma CardImagesDistinct(a: int, b: int)
    requires 0 <= a < Cycle && 0 <= b < Cycle && a != b
    ensures CardImage(a) != CardImage(b)
  {
  }

  /** A card shows text exactly when it shows a tile other than the background. */
  lemma TextIffTile(count: int)
    ensures CardText(count) != "" <==> CardImage(count) != TileBackground3
  {
  }

  /** The counter after one click. */
  function NextCount(count: int): (next: int)
    requires 0 <= count < Cycle
    ensures 0 <= next < Cycle
    ensures next == 0 <==> count == Cycle - 1
  {
    (count + 1) % Cycle
  }

  /** The counter after `n` clicks. */
  function CountAfter(count: int, n: nat): (c: int)
    requires 0 <= count < Cycle
    ensures 0 <= c < Cycle
    decreases n
  {
    if n == 0 then count else CountAfter(NextCount(count), n - 1)
  }

  /** `n` clicks advance a counter by `n`, modulo five. */
  lemma {:induction false} CountAfterIsModular(count: int, n: nat)
    requires 0 <= count < Cycle
    ensures CountAfter(count, n) == (count + n) % Cycle
    decreases n
  {
    if n > 0 {
      CountAfterIsModular(NextCount(count), n - 1);
    }
  }

  /** Five clicks on a card bring its counter back. */
  lemma FiveClicksRestore(count: int)
    requires 0 <= count < Cycle
    ensures CountAfter(count, 5) == count
  {
    CountAfterIsModular(count, 5);
  }

  predicate ValidBoard(clicks: seq<int>) {
    |clicks| == Dim * Dim && forall i :: 0 <= i < |clicks| ==> 0 <= clicks[i] < Cycle
  }

  /** The board after a click on cell `index`. */
  function Clicked(clicks: seq<int>, index: int): (after: seq<int>)
    requires ValidBoard(clicks) && 0 <= index < |clicks|
    ensures ValidBoard(after)
  {
    clicks[index := NextCount(clicks[index])]
  }

  /** Clicks on two cells give the same board in either order. */
  lemma ClicksCommute(clicks: seq<int>, i: int, j: int)
    requires ValidBoard(clicks) && 0 <= i < |clicks| && 0 <= j < |clicks|
    ensures Clicked(Clicked(clicks, i), j) == Clicked(Clicked(clicks, j), i)
  {
  }

  /** Five clicks on one cell give the board back. */
  lemma {:induction false} FiveClicksRestoreBoard(clicks: seq<int>, index: int)
    requires ValidBoard(clicks) && 0 <= index < |clicks|
    ensures Clicked(Clicked(Clicked(Clicked(Clicked(clicks, index), index), index), index), index) == clicks
  {
    FiveClicksRestore(clicks[index]);
    var c := clicks[index];
    assert CountAfter(c, 5) == NextCount(NextCount(NextCount(NextCount(NextCount(c)))));
  }

  class AppModel {
    var userName: string
    const dim: nat
    var clicks: seq<int>

    ghost predicate Valid()
      reads this
    {
      dim == Dim && ValidBoard(clicks)
    }

    constructor ()
      ensures Valid()
      ensures userName == "N.N."
      ensures clicks == seq(9, _ => 0)
    {
      userName := "N.N.";
      dim := Dim;
      clicks := seq(Dim * Dim, _ => 0);
    }

    /** The text of card `index`; an index off the board throws. */
    function CardTextOf(index: int): (r: Result<string>)
      reads this
      ensures r.Thrown? <==> !(0 <= index < |clicks|)
      ensures r.Thrown? ==> r.exception == IndexOutOfBoundsException(index, |clicks|)
      ensures r.Value? ==> r.value == CardText(clicks[index])
      ensures r.Value? ==> (r.value != "" <==> 1 <= clicks[index] <= 4)
      ensures r.Value? && Valid() ==> (r.value == "" <==> clicks[index] == 0)
    {
      if 0 <= index < |clicks| then Value(CardText(clicks[index]))
      else Thrown(IndexOutOfBoundsException(index, |clicks|))
    }

    /** The tile of card `index`; an index off the board throws. */
    function CardImageOf(index: int): (r: Result<Tile>)
      reads this
      ensures r.Thrown? <==> !(0 <= index < |clicks|)
      ensures r.Thrown? ==> r.exception == IndexOutOfBoundsException(index, |clicks|)
      ensures r.Value? ==> r.value == CardImage(clicks[index])
      ensures r.Value? && Valid() ==> (r.value == TileBackground3 <==> clicks[index] == 0)
    {
      if 0 <= index < |clicks| then Value(CardImage(clicks[index]))
      else Thrown(IndexOutOfBoundsException(index, |clicks|))
    }

    /** A click on card `index` advances its counter and no other; an index off the board throws and changes nothing. */
    method IsClicked(index: int) returns (r: Result<()>)
      requires Valid()
      modifies this
      ensures Valid()
      ensures r.Thrown? <==> !(0 <= index < |old(clicks)|)
      ensures r.Thrown? ==> r.exception == IndexOutOfBoundsException(index, |old(clicks)|) && clicks == old(clicks)
      ensures r.Value? ==> clicks == Clicked(old(clicks), index)
      ensures r.Value? ==> clicks[index] == NextCount(old(clicks)[index])
      ensures forall j :: 0 <= j < |clicks| && j != index ==> clicks[j] == old(clicks)[j]
      ensures userName == old(userName)
    {
      if 0 <= index < |clicks| {
        clicks := clicks[index := (clicks[index] + 1) % Cycle];
        r := Value(());
      } else {
        r := Thrown(IndexOutOfBoundsException(index, |clicks|));
      }
    }
  }
}
