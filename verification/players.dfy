/** A player at the table. */
module Players {
  import opened Cards

  datatype ConnectionStatus = Connected | Disconnected | Reconnecting

  const STARTING_STACK := 400
  const TARGET_STACK := 400
  const TOP_UP_THRESHOLD := 20

  /** A stack below five big blinds is restored to the full 100. */
  function ToppedUp(stack: int): int {
    if stack < TOP_UP_THRESHOLD then TARGET_STACK else stack
  }

  class Player {
    const id: string
    var stack: int
    var seat: int
    var holeCards: seq<Card>
    var connectionStatus: ConnectionStatus
    var hasDisconnectTime: bool
    var isSittingOut: bool

    constructor (id: string, stack: int, seat: int)
      ensures this.id == id && this.stack == stack && this.seat == seat && holeCards == []
      ensures connectionStatus == Connected && !hasDisconnectTime && !isSittingOut
    {
      this.id, this.stack, this.seat := id, stack, seat;
      holeCards := [];
      connectionStatus, hasDisconnectTime, isSittingOut := Connected, false, false;
    }

    predicate CanAct()
      reads this
    {
      connectionStatus.Connected? && !isSittingOut
    }

    predicate NeedsTopUp()
      reads this
    {
      stack < TOP_UP_THRESHOLD
    }

    method TopUp()
      modifies this`stack
      ensures stack == ToppedUp(old(stack))
      ensures stack == if old(stack) < 20 then 400 else old(stack)
    {
      if NeedsTopUp() { stack := TARGET_STACK; }
    }
  }
}
