/**
 * The stat bonuses a consumable item record carries: for each of
 * craftsmanship, control and CP, a `<stat>_percent` / `<stat>_value` pair
 * that the record has only when the source set it.
 */
module Bonuses {
  import opened Wrappers

  /** One `<stat>_percent` / `<stat>_value` pair. */
  datatype Bonus = Bonus(percent: int, value: int)

  /** The three pairs of an item record; None where the record has no such keys. */
  datatype Bonuses = Bonuses(craftsmanship: Option<Bonus>, control: Option<Bonus>, cp: Option<Bonus>)

  /** A record before any bonus is set. */
  const NoBonuses: Bonuses := Bonuses(None, None, None)
}
