/** The five coin denominations of the machine (Danish kroner). */
module Coins {

  /** The `CoinType` enumeration; its underlying integer is the face value. */
  datatype CoinType = One | Two | Five | Ten | Twenty

  /** The face value of a coin, i.e. the enum's underlying integer. */
  function Face(c: CoinType): (v: nat)
    ensures v in {1, 2, 5, 10, 20}
    ensures v > 0
  {
    match c
    case One => 1
    case Two => 2
    case Five => 5
    case Ten => 10
    case Twenty => 20
  }

  /** The chained conditional that maps a face value back to its coin;
      anything that is not 20, 10, 5 or 2 falls through to One. */
  function CoinOfValue(v: int): (c: CoinType)
    ensures v in {1, 2, 5, 10, 20} ==> Face(c) == v
  {
    if v == 20 then Twenty
    else if v == 10 then Ten
    else if v == 5 then Five
    else if v == 2 then Two
    else One
  }

  /** Face values identify coins: mapping a coin to its value and back is the identity. */
  lemma FaceRoundTrip(c: CoinType)
    ensures CoinOfValue(Face(c)) == c
  {
  }
}
