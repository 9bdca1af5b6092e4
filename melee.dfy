/** The game's closed enumerations (characters, action states, attacks, items, stages), which the
    validator takes from an external crate. Only a "look up this code, or report it unknown" capability
    is needed, so each lookup is a field of `Tables`, a value every decoder is given. */
module Melee {
  import opened Common

  /** The characters the validator refers to by name; every other character is `OtherCharacter`. */
  datatype Character =
    | IceClimbers | Nana | Zelda | Sheik
    | MasterHand | GigaBowser | WireframeMale | WireframeFemale
    | OtherCharacter(id: nat)

  /** An action state code resolved against a character, or kept raw when the table does not know it
      (`State::Unknown`). */
  datatype ActionState = Resolved(id: nat) | Unresolved(raw: nat)

  /** The external lookups, left uninterpreted: any total functions may stand here. */
  datatype Tables = Tables(
    characterFromCss: byte -> Option<Character>,      // Character::try_from_css
    defaultCharacter: Character,                       // Character::default()
    characterFromInternal: byte -> Option<Character>, // Character::try_from_internal
    nanaInternalId: byte,                              // Character::Nana.as_internal()
    stateOf: (nat, Character) -> Option<nat>,         // State::from_state_and_char
    attackKnown: byte -> bool,                         // Attack::from_repr(..).is_some()
    itemKnown: nat -> bool,                            // Item::from_repr(..).is_some()
    stageKnown: nat -> bool                            // StageID::from_repr(..).is_some()
  )

  /** `State::from_state_and_char`: the resolved state, or `Unresolved` carrying the raw code. */
  function StateFor(t: Tables, raw: nat, c: Character): (s: ActionState)
    ensures s.Unresolved? <==> t.stateOf(raw, c).None?
    ensures s.Unresolved? ==> s.raw == raw
    ensures s.Resolved? ==> Some(s.id) == t.stateOf(raw, c)
  {
    match t.stateOf(raw, c)
    case Some(id) => Resolved(id)
    case None => Unresolved(raw)
  }
}
