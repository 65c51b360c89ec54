/**
 * The wand's orchestration: one drain of the inbound message queue into
 * the "last message" slot, and one trigger-gated capture episode that
 * samples two gyroscope axes while the button is held, classifies the
 * window when it is released, and broadcasts the spell unless it is Other.
 *
 * The sensor, the button and the radio are injected: a capture episode
 * receives the press edge and the readings taken on each held poll, the
 * drain receives the queued messages, and the send the wand would make is
 * returned instead of performed.
 */
module WandDevice {
  import opened Spells
  import opened Classifier

  /** One sensor read: three linear and three angular components. */
  datatype Reading = Reading(ax: int, ay: int, az: int, gx: int, gy: int, gz: int)

  /** An inbound message as drained from the radio: sender, payload, receive time. */
  datatype Message = Message(sender: Bytes, payload: Bytes, time: int)

  /** An outbound send: destination address and payload. */
  datatype Send = Send(address: Bytes, payload: Bytes)

  datatype Option<T> = None | Some(value: T)

  /**
   * `Wand.read_movement_data`: the (lateral, vertical) pair of one reading,
   * which is (gy, gx). The capture loop binds the lateral value to a name
   * `gz`, but what it appends is the y angular rate.
   */
  function ReadMovementData(r: Reading): (axes: (int, int))
    ensures axes.0 == r.gy && axes.1 == r.gx
  {
    (r.gy, r.gx)
  }

  /**
   * The slot after overwriting prev with the payload of each message of
   * the inbox in turn: only the last payload is retained, and an empty
   * drain keeps the old one.
   */
  function LastPayload(prev: Bytes, inbox: seq<Message>): (slot: Bytes)
    ensures inbox == [] ==> slot == prev
    ensures inbox != [] ==> slot == inbox[|inbox| - 1].payload
    decreases inbox
  {
    if inbox == [] then prev else LastPayload(inbox[0].payload, inbox[1..])
  }

  /** Draining a queue in two parts leaves the slot as one drain of the whole would. */
  lemma {:induction false} LastPayloadConcat(prev: Bytes, a: seq<Message>, b: seq<Message>)
    ensures LastPayload(prev, a + b) == LastPayload(LastPayload(prev, a), b)
    decreases a
  {
    if a == [] {
      assert a + b == b;
    } else {
      assert (a + b)[0] == a[0] && (a + b)[1..] == a[1..] + b;
      LastPayloadConcat(a[0].payload, a[1..], b);
    }
  }

  /** The lateral samples an episode collects from its readings. */
  function LateralSamples(readings: seq<Reading>): (lr: seq<int>)
    ensures |lr| == |readings|
    ensures forall i :: 0 <= i < |readings| ==> lr[i] == readings[i].gy
  {
    seq(|readings|, i requires 0 <= i < |readings| => ReadMovementData(readings[i]).0)
  }

  /** The vertical samples an episode collects from its readings. */
  function VerticalSamples(readings: seq<Reading>): (ud: seq<int>)
    ensures |ud| == |readings|
    ensures forall i :: 0 <= i < |readings| ==> ud[i] == readings[i].gx
  {
    seq(|readings|, i requires 0 <= i < |readings| => ReadMovementData(readings[i]).1)
  }

  class Wand {
    /** The payload of the last message received from the network. */
    var msg: Bytes

    constructor ()
      ensures msg == []
    {
      msg := [];
    }

    /** `Wand.my_callback`: drain the inbound queue, keeping only the last payload. */
    method MyCallback(inbox: seq<Message>)
      modifies this
      ensures msg == LastPayload(old(msg), inbox)
      ensures msg == if inbox == [] then old(msg) else inbox[|inbox| - 1].payload
    {
      ghost var prev := msg;
      for i := 0 to |inbox|
        invariant msg == LastPayload(prev, inbox[..i])
      {
        LastPayloadConcat(prev, inbox[..i], [inbox[i]]);
        assert inbox[..i + 1] == inbox[..i] + [inbox[i]];
        msg := inbox[i].payload;
      }
      assert inbox[..|inbox|] == inbox;
    }

    /**
     * `Wand.puzzle`, one episode. `pressed` is the button's press edge;
     * `readings` holds the sensor read of each poll on which the button was
     * still held, in order. Returns the two sample windows and the send the
     * wand makes, if any.
     */
    method Puzzle(pressed: bool, readings: seq<Reading>)
      returns (lr: seq<int>, ud: seq<int>, sent: Option<Send>)
      ensures !pressed ==> lr == [] && ud == [] && sent == None
      ensures pressed ==> lr == LateralSamples(readings) && ud == VerticalSamples(readings)
      ensures |lr| == |ud|
      ensures sent.Some? <==> pressed && DetermineSpell(lr, ud) != Other
      ensures sent.Some? ==> sent.value == Send(Broadcast, Payload(DetermineSpell(lr, ud)))
      ensures readings == [] ==> sent == None
    {
      lr, ud, sent := [], [], None;
      if pressed {
        var i := 0;
        while i < |readings|
          invariant 0 <= i <= |readings|
          invariant lr == LateralSamples(readings[..i])
          invariant ud == VerticalSamples(readings[..i])
        {
          var (lateral, vertical) := ReadMovementData(readings[i]);
          lr := lr + [lateral];
          ud := ud + [vertical];
          i := i + 1;
        }
        assert readings[..i] == readings;
        var movement := DetermineSpell(lr, ud);
        if movement != Other {
          sent := Some(Send(Broadcast, Payload(movement)));
        }
      }
      if readings == [] {
        EmptyWindowIsOther();
      }
    }

    /** One iteration of `Wand.run`: drain the inbound queue, then run one episode. */
    method Tick(inbox: seq<Message>, pressed: bool, readings: seq<Reading>)
      returns (sent: Option<Send>)
      modifies this
      ensures msg == if inbox == [] then old(msg) else inbox[|inbox| - 1].payload
      ensures sent.Some? <==>
              pressed && DetermineSpell(LateralSamples(readings), VerticalSamples(readings)) != Other
      ensures sent.Some? ==>
                sent.value == Send(Broadcast, Payload(DetermineSpell(LateralSamples(readings), VerticalSamples(readings))))
    {
      MyCallback(inbox);
      var lr, ud;
      lr, ud, sent := Puzzle(pressed, readings);
    }
  }
}
