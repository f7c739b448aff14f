/** One TCP connection of the DoIP server: its receive buffer, routing state and timers. */
module DoipConnection {
  import opened Bytes
  import opened DoipFrame
  import opened DoipStream
  import M = DoipModel

  class DoipConnection {
    var rx: seq<Byte>
    var state: M.ConnectionState
    var testerAddress: nat
    var activationType: Byte
    var initialDeadline: int
    var generalDeadline: int
    var aliveSentAt: int
    var alivePending: bool

    function View(): M.Connection
      reads this
    {
      M.Connection(rx, state, testerAddress, activationType,
                   initialDeadline, generalDeadline, aliveSentAt, alivePending)
    }

    constructor ()
      ensures View() == M.FRESH
    {
      rx, state, testerAddress, activationType := [], M.Initialized, 0, 0;
      initialDeadline, generalDeadline, aliveSentAt, alivePending := 0, 0, 0, false;
    }

    method Append(data: seq<Byte>)
      modifies this`rx
      ensures rx == old(rx) + data
    {
      rx := rx + data;
    }

    function PeekHeader(): Option<Header>
      reads this
    {
      if |rx| < HEADER_SIZE then None else ParseHeader(rx)
    }

    /** The first frame of the buffer, which stays there until it is consumed. */
    method NextFrame() returns (frame: Option<Frame>)
      ensures Classify(rx).Complete? ==> frame == Some(Classify(rx).frame)
      ensures Classify(rx).NeedMore? || Classify(rx).TooLarge? ==> frame == None
      ensures frame.Some? <==>
        |rx| >= HEADER_SIZE && FromBe32(rx[4..8]) <= MAX_PAYLOAD_LENGTH && |rx| >= HEADER_SIZE + FromBe32(rx[4..8])
      ensures frame.Some? ==>
        frame.value == Frame(FromBe16(rx[2..4]), rx[HEADER_SIZE..HEADER_SIZE + FromBe32(rx[4..8])])
    {
      var header := PeekHeader();
      if header.None? || header.value.payloadLength > MAX_PAYLOAD_LENGTH {
        return None;
      }
      var total := HEADER_SIZE + header.value.payloadLength;
      if |rx| < total {
        return None;
      }
      return Some(Frame(header.value.payloadType, rx[HEADER_SIZE..total]));
    }

    function NextFrameTotal(): (n: nat)
      reads this
      ensures Classify(rx).Complete? ==> n == HEADER_SIZE + |Classify(rx).frame.payload|
    {
      var header := PeekHeader();
      if header.None? || header.value.payloadLength > MAX_PAYLOAD_LENGTH then 0
      else HEADER_SIZE + header.value.payloadLength
    }

    method Consume(n: nat)
      modifies this`rx
      ensures rx == if n >= |old(rx)| then [] else old(rx)[n..]
    {
      if n >= |rx| {
        rx := [];
      } else {
        rx := rx[n..];
      }
    }

    predicate RoutingActive()
      reads this
    {
      state == M.Active
    }

    method SetRoutingActive(address: nat, kind: Byte)
      modifies this`state, this`testerAddress, this`activationType
      ensures state == M.Active && testerAddress == address && activationType == kind
    {
      state, testerAddress, activationType := M.Active, address, kind;
    }

    method Touch(inactivity: nat, now: int)
      modifies this`generalDeadline
      ensures generalDeadline == if state == M.Active then now + inactivity else old(generalDeadline)
    {
      if state == M.Active {
        ArmGeneralInactivity(inactivity, now);
      }
    }

    method ArmInitialInactivity(duration: nat, now: int)
      modifies this`initialDeadline
      ensures initialDeadline == now + duration
    {
      initialDeadline := now + duration;
    }

    method ArmGeneralInactivity(duration: nat, now: int)
      modifies this`generalDeadline
      ensures generalDeadline == now + duration
    {
      generalDeadline := now + duration;
    }

    method ArmAliveCheck(duration: nat, now: int)
      modifies this`alivePending, this`aliveSentAt, this`generalDeadline
      ensures alivePending && aliveSentAt == now && generalDeadline == now + duration
    {
      alivePending, aliveSentAt := true, now;
      generalDeadline := aliveSentAt + duration;
    }

    method ClearAliveCheck()
      modifies this`alivePending, this`aliveSentAt
      ensures !alivePending && aliveSentAt == 0
    {
      alivePending, aliveSentAt := false, 0;
    }

    predicate InitialInactivityExpired(now: int)
      reads this
    {
      now >= initialDeadline
    }

    predicate GeneralInactivityExpired(now: int)
      reads this
    {
      now >= generalDeadline
    }

    predicate AliveTimeout(duration: nat, now: int)
      reads this
    {
      alivePending && now >= aliveSentAt + duration
    }
  }
}
