/** A single price/volume quote: one level of an order book. */
module Orders {

  /** `price` is quote units per base unit, `volume` is in base units. */
  datatype Order = Order(price: real, volume: real) {

    /** Empty means the volume is exactly zero (a strict equality test). */
    predicate IsEmpty() {
      volume == 0.0
    }
  }

  /** The order an edge reports once its book is exhausted. */
  const Exhausted: Order := Order(0.0, 0.0)

  /** Emptiness looks only at the volume: the price never matters, the
      exhausted marker is empty, and a negative volume is not empty. */
  lemma EmptinessIsZeroVolume(o: Order, price: real)
    ensures o.IsEmpty() <==> o.(price := price).IsEmpty()
    ensures Exhausted.IsEmpty()
    ensures o.volume < 0.0 ==> !o.IsEmpty()
  {
  }
}
