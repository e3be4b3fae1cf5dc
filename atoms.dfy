/**
 * Boolean values stored as atom fields of a search document: true is the
 * atom "1", false the atom "0", and reading an atom back yields true only
 * for "1".
 */
module Atoms {
  import opened Wrappers

  const TrueAtom: string := "1"
  const FalseAtom: string := "0"

  /** The atom that stores a boolean. */
  function GetAtom(value: bool): (atom: string)
    ensures atom == TrueAtom || atom == FalseAtom
    ensures atom == TrueAtom <==> value
  {
    if value then TrueAtom else FalseAtom
  }

  /**
   * Reads a boolean back from an atom; a missing atom (`None`, a Java `null`)
   * and every atom other than "1" read as false.
   */
  function GetBoolean(atom: Option<string>): (value: bool)
    ensures value <==> atom == Some(TrueAtom)
  {
    match atom
    case None => false
    case Some(text) => text == TrueAtom
  }

  /** Storing a boolean as an atom and reading it back gives the boolean. */
  lemma AtomRoundTrip(value: bool)
    ensures GetBoolean(Some(GetAtom(value))) == value
  {
  }
}
