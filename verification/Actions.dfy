// Every player action reports why it succeeded or failed (server/include/w2f/Types.h).
module Actions {
  datatype ActionResult =
    | Ok | WrongPhase | InvalidPlayer | PlayerEliminated | NotEnoughGold | InvalidSlot | EmptySlot | RosterFull | BoardFull
    | MaxLevel | InvalidUnit | ItemsFull | InvalidItem | ShopClosed | AlreadyPicked | NoItemsToRemove | UnitInCombat
}
