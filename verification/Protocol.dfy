/** The router's side of the bridge connection: the framing and the message
    encoders (linux/input-router/src/protocol.rs). */
module Protocol {
  import opened Bytes
  import opened BridgeMessages

  const HELLO_ACK: u8 := 0x02

  /** A connection to the bridge: what has been written after the greeting, how
      many more writes will arrive, and whether a write has been lost. */
  datatype Link = Link(wire: seq<Msg>, budget: nat, lost: bool)

  function Put(l: Link, m: Msg): Link {
    if l.lost || l.budget == 0 then l.(lost := true)
    else l.(wire := l.wire + [m], budget := l.budget - 1)
  }

  /** The answer to the greeting that is taken: type and payload, or none when
      connecting, writing or reading failed. */
  predicate Accepted(answer: Option<(u8, seq<u8>)>) {
    answer == Some((HELLO_ACK, Le16(PROTOCOL_VERSION)))
  }

  lemma {:induction false} AllBytesAppend(ms: seq<Msg>, m: Msg)
    ensures AllBytes(ms + [m]) == AllBytes(ms) + MsgBytes(m)
  {
    hide MsgBytes;
    if ms == [] {
      assert [m][1..] == [] && [] + [m] == [m];
    } else {
      assert (ms + [m])[1..] == ms[1..] + [m];
      AllBytesAppend(ms[1..], m);
    }
  }

  method BuildMessage(t: u8, payload: seq<u8>) returns (f: seq<u8>)
    requires |payload| <= MAX_PAYLOAD
    ensures f == [t, |payload|] + payload
  {
    f := [];
    f := f + [t];
    var len: u8 := |payload|;
    f := f + [len];
    f := f + payload;
  }

  /** stream: the bytes that reach the bridge. After the first write that does
      not arrive no other does, and a write may still look successful. */
  class BridgeClient {
    var stream: seq<u8>
    var budget: nat
    var lost: bool
    ghost var wire: seq<Msg>

    ghost predicate Valid()
      reads this
    {
      stream == AllBytes([Hello(PROTOCOL_VERSION)] + wire)
    }

    ghost function L(): Link
      reads this
    {
      Link(wire, budget, lost)
    }

    /** Connected, with the greeting written. */
    constructor (budget: nat)
      ensures Valid() && L() == Link([], budget, false)
    {
      var hello := Hello(PROTOCOL_VERSION);
      var greeting := BuildMessage(0x01, Le16(PROTOCOL_VERSION));
      stream, wire := greeting, [];
      this.budget, lost := budget, false;
      new;
      assert [hello] + [] == [hello] && [hello][1..] == [];
      assert AllBytes([hello]) == MsgBytes(hello) + [];
    }

    /** Connects, greets and reads the answer; no client unless it is the expected
        one. */
    static method Connect(answer: Option<(u8, seq<u8>)>, budget: nat) returns (c: BridgeClient?)
      ensures c != null <==> Accepted(answer)
      ensures c != null ==> fresh(c) && c.Valid() && c.L() == Link([], budget, false)
    {
      c := null;
      if answer.Some? {
        var (t, p) := answer.value;
        if t == HELLO_ACK && p == Le16(PROTOCOL_VERSION) {
          c := new BridgeClient(budget);
        }
      }
    }

    method Send(t: u8, payload: seq<u8>, ghost m: Msg) returns (ok: bool)
      requires Valid() && TypeOf(m) == t && PayloadOf(m) == payload
      modifies this
      ensures Valid() && L() == Put(old(L()), m)
      ensures !ok ==> lost
    {
      hide TypeOf, PayloadOf;
      var f := BuildMessage(t, payload);
      if lost || budget == 0 {
        lost := true;
        ok := *;
        return;
      }
      AllBytesAppend([Hello(PROTOCOL_VERSION)] + wire, m);
      assert [Hello(PROTOCOL_VERSION)] + (wire + [m]) == [Hello(PROTOCOL_VERSION)] + wire + [m];
      stream, budget := stream + f, budget - 1;
      wire := wire + [m];
      ok := true;
    }

    /** A lost write is noticed, or not. */
    method SendKeepAlive(noticed: bool) returns (ok: bool)
      requires Valid()
      modifies this
      ensures Valid() && L() == Put(old(L()), KeepAlive)
      ensures ok <==> !(lost && noticed)
    {
      var _ := Send(0x03, [], KeepAlive);
      ok := !(lost && noticed);
    }

    method SendKey(usage: u8, down: bool)
      requires Valid()
      modifies this
      ensures Valid() && L() == Put(old(L()), if down then KeyDown(usage) else KeyUp(usage))
    {
      if down {
        var _ := Send(0x10, [usage], KeyDown(usage));
      } else {
        var _ := Send(0x11, [usage], KeyUp(usage));
      }
    }

    method SendPointer(x: u16, y: u16)
      requires Valid()
      modifies this
      ensures Valid() && L() == Put(old(L()), PointerAbs(x, y))
    {
      var p := new u8[4](_ => 0);
      var xb, yb := Le16(x), Le16(y);
      p[0], p[1] := xb[0], xb[1];
      p[2], p[3] := yb[0], yb[1];
      assert p[..] == Le16(x) + Le16(y);
      var _ := Send(0x20, p[..], PointerAbs(x, y));
    }

    method SendButtons(buttons: u8)
      requires Valid()
      modifies this
      ensures Valid() && L() == Put(old(L()), PointerButton(buttons))
    {
      var _ := Send(0x21, [buttons], PointerButton(buttons));
    }

    method SendDetents(detents: u8)
      requires Valid()
      modifies this
      ensures Valid() && L() == Put(old(L()), PointerWheel(detents))
    {
      var _ := Send(0x22, [detents], PointerWheel(detents));
    }

    method SendRelease()
      requires Valid()
      modifies this
      ensures Valid() && L() == Put(old(L()), ReleaseKeys)
    {
      var _ := Send(0x30, [], ReleaseKeys);
    }
  }
}
