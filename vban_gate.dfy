/** The inbound VBAN gate of bot.js: every audio packet's stream name is
    recorded, and only packets of the selected stream in the one format
    Discord takes (stereo, 48 kHz, 16-bit PCM) are forwarded, and only while
    the consumer has asked for data. The packet parser is foreign: packets
    arrive as already decoded header fields and a payload. `push`'s return
    value, the consumer's backpressure answer, is a parameter. */
module VbanGate {
  import opened Wrappers
  import opened Bytes
  import opened VbanHeader

  /** The gate sees the decoded rate in hertz, not the header's rate index. */
  const SAMPLE_RATE_48000: nat := 48000

  /** The decoded header fields the gate looks at. */
  datatype PacketHeader = PacketHeader(
    sp: nat, streamName: string, nbChannel: nat, sr: nat, formatIndex: nat, codec: nat, frameCounter: nat)

  /** No resampling is done, so only stereo 48 kHz INT16 PCM is accepted. */
  predicate FormatOk(h: PacketHeader)
  {
    h.nbChannel == NB_CHANNEL && h.sr == SAMPLE_RATE_48000 && h.formatIndex == DATATYPE_INT16 && h.codec == CODEC_PCM
  }

  /** A Readable's side of the backpressure handshake: whether the consumer
      has asked for data, and what has been pushed to it. */
  datatype Outlet = Outlet(reading: bool, pushed: seq<seq<byte>>)

  /** The push gate both the inbound stream and `feedVbanOut` use: data goes
      through only while the consumer is reading, and afterwards it is still
      reading only if it was and the push answered that it wants more. */
  function Offer(o: Outlet, data: seq<byte>, pushResult: bool): (r: Outlet)
    ensures r.reading == (o.reading && pushResult)
    ensures o.reading ==> r.pushed == o.pushed + [data]
    ensures !o.reading ==> r == o
  {
    if o.reading then Outlet(pushResult, o.pushed + [data]) else o
  }

  /** `read()`: the consumer asks for data. */
  function Ready(o: Outlet): (r: Outlet)
    ensures r.reading && r.pushed == o.pushed
  {
    o.(reading := true)
  }

  /** The inbound stream's fields: the set of stream names seen, the selected
      name (`None` for `undefined`, after `vbanin` with no argument), and its
      outlet. */
  datatype GateState = GateState(list: set<string>, name: Option<string>, outlet: Outlet)

  function Initial(): (st: GateState)
    ensures st.list == {} && st.name == Some("") && !st.outlet.reading && st.outlet.pushed == []
  {
    GateState({}, Some(""), Outlet(false, []))
  }

  /** Whether a packet is forwarded when the outlet is reading. */
  predicate Accepted(name: Option<string>, h: PacketHeader)
  {
    h.sp == SP_AUDIO && name == Some(h.streamName) && FormatOk(h)
  }

  /** The "message" handler, on one decoded packet. */
  function OnPacket(st: GateState, h: PacketHeader, audio: seq<byte>, pushResult: bool): (r: GateState)
    // A packet of another sub-protocol changes nothing.
    ensures h.sp != SP_AUDIO ==> r == st
    // Every audio packet's name is recorded; a known name leaves the set as it is.
    ensures h.sp == SP_AUDIO ==> r.list == st.list + {h.streamName}
    ensures h.streamName in st.list ==> r.list == st.list
    // The payload is forwarded exactly when the packet is accepted and the
    // consumer is reading; the flag then becomes push's result.
    ensures Accepted(st.name, h) ==> r.outlet == Offer(st.outlet, audio, pushResult)
    ensures !(Accepted(st.name, h) && st.outlet.reading) ==> r.outlet == st.outlet
    // Only a selected-stream packet in a wrong format changes the selection,
    // and it clears it.
    ensures r.name != st.name ==> h.sp == SP_AUDIO && st.name == Some(h.streamName) && !FormatOk(h)
    ensures h.sp == SP_AUDIO && st.name == Some(h.streamName) && !FormatOk(h) ==> r.name == Some("")
  {
    if h.sp != SP_AUDIO then st
    else
      var list := st.list + {h.streamName};
      if st.name != Some(h.streamName) then st.(list := list)
      else if FormatOk(h) then st.(list := list, outlet := Offer(st.outlet, audio, pushResult))
      else st.(list := list, name := Some(""))
  }

  /** The `vbanin` selection: the command's first argument, or no name at all
      when it has none. */
  function Select(args: seq<string>): (name: Option<string>)
    ensures |args| > 0 ==> name == Some(args[0])
    ensures |args| == 0 ==> name == None
  {
    if |args| > 0 then Some(args[0]) else None
  }

  /** What drives the inbound stream: a packet, a `read()` call, a `vbanin`
      command. */
  datatype Event =
    | Packet(h: PacketHeader, audio: seq<byte>, pushResult: bool)
    | ReadRequest
    | SelectInput(args: seq<string>)

  /** One event: a packet goes through the handler, a `read()` only raises
      the reading flag, a `vbanin` only replaces the selected name. */
  function Step(st: GateState, e: Event): (r: GateState)
    ensures e.Packet? ==> r == OnPacket(st, e.h, e.audio, e.pushResult)
    ensures e.ReadRequest? ==> r.outlet.reading && r.outlet.pushed == st.outlet.pushed && r.list == st.list && r.name == st.name
    ensures e.SelectInput? ==> r.name == Select(e.args) && r.list == st.list && r.outlet == st.outlet
    // At most one payload is forwarded, and nothing already pushed is lost.
    ensures st.outlet.pushed <= r.outlet.pushed && |r.outlet.pushed| <= |st.outlet.pushed| + 1
  {
    match e
    case Packet(h, audio, pushResult) => OnPacket(st, h, audio, pushResult)
    case ReadRequest => st.(outlet := Ready(st.outlet))
    case SelectInput(args) => st.(name := Select(args))
  }

  /** The events in order. What was pushed stays pushed, and each event
      forwards at most one payload. */
  function Run(st: GateState, events: seq<Event>): (r: GateState)
    ensures st.outlet.pushed <= r.outlet.pushed
    ensures |r.outlet.pushed| <= |st.outlet.pushed| + |events|
    decreases |events|
  {
    if events == [] then st else Run(Step(st, events[0]), events[1..])
  }

  /** The stream names of the audio packets among the events. */
  function AudioNames(events: seq<Event>): set<string>
  {
    if events == [] then {}
    else
      var e := events[0];
      (if e.Packet? && e.h.sp == SP_AUDIO then {e.h.streamName} else {}) + AudioNames(events[1..])
  }

  lemma {:induction false} RunAppend(st: GateState, a: seq<Event>, b: seq<Event>)
    ensures Run(st, a + b) == Run(Run(st, a), b)
    decreases |a|
  {
    if a == [] {
      assert a + b == b;
    } else {
      assert (a + b)[0] == a[0];
      assert (a + b)[1..] == a[1..] + b;
      RunAppend(Step(st, a[0]), a[1..], b);
    }
  }

  /** The list is the initial one plus every audio stream name seen; it is
      never cleared. */
  lemma {:induction false} RunRecordsNames(st: GateState, events: seq<Event>)
    ensures Run(st, events).list == st.list + AudioNames(events)
    decreases |events|
  {
    if events != [] {
      RunRecordsNames(Step(st, events[0]), events[1..]);
    }
  }

  /** Without a `read()`, a stream that is not reading forwards nothing. */
  lemma {:induction false} NoReadNoForward(st: GateState, events: seq<Event>)
    requires !st.outlet.reading
    requires forall i :: 0 <= i < |events| ==> !events[i].ReadRequest?
    ensures Run(st, events).outlet == st.outlet
    decreases |events|
  {
    if events != [] {
      NoReadNoForward(Step(st, events[0]), events[1..]);
    }
  }

  /** Until a `vbanin` reselects it, a stream that is not the selected one is
      never forwarded and never changes the selection. */
  lemma {:induction false} UnselectedIgnored(st: GateState, n: string, events: seq<Event>)
    requires st.name != Some(n)
    requires forall i :: 0 <= i < |events| ==> !events[i].SelectInput? && (events[i].Packet? ==> events[i].h.streamName == n)
    ensures Run(st, events).outlet.pushed == st.outlet.pushed
    ensures Run(st, events).name == st.name
    decreases |events|
  {
    if events != [] {
      UnselectedIgnored(Step(st, events[0]), n, events[1..]);
    }
  }

  /** A wrong-format packet on the selected (non-empty) stream clears the
      selection, and that stream is then locked out until reselected. */
  lemma MismatchLocksOut(st: GateState, h: PacketHeader, audio: seq<byte>, pushResult: bool, events: seq<Event>)
    requires h.sp == SP_AUDIO && st.name == Some(h.streamName) && h.streamName != "" && !FormatOk(h)
    requires forall i :: 0 <= i < |events| ==> !events[i].SelectInput? && (events[i].Packet? ==> events[i].h.streamName == h.streamName)
    ensures Run(st, [Packet(h, audio, pushResult)] + events).name == Some("")
    ensures Run(st, [Packet(h, audio, pushResult)] + events).outlet.pushed == st.outlet.pushed
  {
    var first := OnPacket(st, h, audio, pushResult);
    assert ([Packet(h, audio, pushResult)] + events)[1..] == events;
    UnselectedIgnored(first, h.streamName, events);
  }

  /** `read()` before each of the given events. */
  function ReadBeforeEach(events: seq<Event>): (r: seq<Event>)
    ensures |r| == 2 * |events|
  {
    if events == [] then [] else [ReadRequest, events[0]] + ReadBeforeEach(events[1..])
  }

  /** The payloads of the packets among the events, in order. */
  function Payloads(events: seq<Event>): seq<seq<byte>>
  {
    if events == [] then []
    else (if events[0].Packet? then [events[0].audio] else []) + Payloads(events[1..])
  }

  /** With readiness asserted before each arrival, every accepted packet is
      forwarded, in order, whatever push answers. */
  lemma {:induction false} ReadyBeforeEachForwardsAll(st: GateState, packets: seq<Event>)
    requires forall i :: 0 <= i < |packets| ==> packets[i].Packet? && Accepted(st.name, packets[i].h)
    ensures Run(st, ReadBeforeEach(packets)).outlet.pushed == st.outlet.pushed + Payloads(packets)
    ensures Run(st, ReadBeforeEach(packets)).name == st.name
    decreases |packets|
  {
    if packets != [] {
      var p := packets[0];
      var rest := packets[1..];
      assert ReadBeforeEach(packets) == [ReadRequest, p] + ReadBeforeEach(rest);
      assert Payloads(packets) == [p.audio] + Payloads(rest);
      RunAppend(st, [ReadRequest, p], ReadBeforeEach(rest));
      ReadThenAccept(st, p);
      var next := Run(st, [ReadRequest, p]);
      assert forall i :: 0 <= i < |rest| ==> rest[i].Packet? && Accepted(next.name, rest[i].h) by {
        forall i | 0 <= i < |rest|
          ensures rest[i].Packet? && Accepted(next.name, rest[i].h)
        {
          assert rest[i] == packets[i + 1];
        }
      }
      ReadyBeforeEachForwardsAll(next, rest);
    }
  }

  /** A `read()` then an accepted packet: the payload goes through. */
  lemma ReadThenAccept(st: GateState, p: Event)
    requires p.Packet? && Accepted(st.name, p.h)
    ensures Run(st, [ReadRequest, p]).name == st.name
    ensures Run(st, [ReadRequest, p]).outlet.pushed == st.outlet.pushed + [p.audio]
  {
    var ready := st.(outlet := Ready(st.outlet));
    assert [ReadRequest, p][1..] == [p];
    assert [p][1..] == [];
    assert Run(st, [ReadRequest, p]) == Run(ready, [p]);
    assert Run(ready, [p]) == OnPacket(ready, p.h, p.audio, p.pushResult);
  }

  function Mic1Packet(counter: nat, audio: seq<byte>, pushResult: bool): Event
  {
    Packet(PacketHeader(SP_AUDIO, "mic1", NB_CHANNEL, SAMPLE_RATE_48000, DATATYPE_INT16, CODEC_PCM, counter), audio, pushResult)
  }

  /** Stream "mic1" selected, three well-formed 1024-byte packets with
      counters 5, 6, 7: with a `read()` before each, exactly three payloads
      totalling 3072 bytes are forwarded; with no `read()`, nothing is. */
  lemma Mic1Scenario(a5: seq<byte>, a6: seq<byte>, a7: seq<byte>, r5: bool, r6: bool, r7: bool)
    requires |a5| == 1024 && |a6| == 1024 && |a7| == 1024
    ensures var st := Initial().(name := Some("mic1"));
      var packets := [Mic1Packet(5, a5, r5), Mic1Packet(6, a6, r6), Mic1Packet(7, a7, r7)];
      Run(st, ReadBeforeEach(packets)).outlet.pushed == [a5, a6, a7] &&
      |Flatten(Run(st, ReadBeforeEach(packets)).outlet.pushed)| == 3072 &&
      Run(st, packets).outlet.pushed == []
  {
    var st := Initial().(name := Some("mic1"));
    var packets := [Mic1Packet(5, a5, r5), Mic1Packet(6, a6, r6), Mic1Packet(7, a7, r7)];
    ReadyBeforeEachForwardsAll(st, packets);
    assert Payloads(packets) == [a5, a6, a7] by {
      assert packets[1..] == [packets[1], packets[2]];
      assert packets[1..][1..] == [packets[2]];
      assert packets[1..][1..][1..] == [];
      assert Payloads([packets[2]]) == [a7];
      assert Payloads([packets[1], packets[2]]) == [a6, a7];
    }
    FlattenUniform([a5, a6, a7], 1024);
    NoReadNoForward(st, packets);
  }

  /** The inbound stream object, its fields updated in place. */
  class VbanInStream {
    var list: set<string>
    var name: Option<string>
    var reading: bool
    var pushed: seq<seq<byte>>

    function State(): GateState
      reads this
    {
      GateState(list, name, Outlet(reading, pushed))
    }

    /** `construct`: empty list, empty selection, not reading. */
    constructor ()
      ensures State() == Initial()
    {
      list := {};
      name := Some("");
      reading := false;
      pushed := [];
    }

    /** The "message" handler. */
    method OnMessage(h: PacketHeader, audio: seq<byte>, pushResult: bool)
      modifies this
      ensures State() == OnPacket(old(State()), h, audio, pushResult)
    {
      if h.sp == SP_AUDIO {
        list := list + {h.streamName};
        if name == Some(h.streamName) {
          if FormatOk(h) {
            if reading {
              pushed := pushed + [audio];
              reading := pushResult;
            }
          } else {
            name := Some("");
          }
        }
      }
    }

    /** The `read` hook: the consumer asks for data. */
    method Read()
      modifies this`reading
      ensures State() == Step(old(State()), ReadRequest)
    {
      reading := true;
    }

    /** The `vbanin` command's assignment. */
    method SelectInput(args: seq<string>)
      modifies this`name
      ensures State() == Step(old(State()), Event.SelectInput(args))
    {
      name := Select(args);
    }
  }

  /** The readable wrapper that `feedVbanOut` feeds. */
  class VbanOutFeed {
    var reading: bool
    var pushed: seq<seq<byte>>

    constructor ()
      ensures !reading && pushed == []
    {
      reading := false;
      pushed := [];
    }

    /** The `feedVbanOut` callback, on one chunk of outbound audio. */
    method Feed(data: seq<byte>, pushResult: bool)
      modifies this
      ensures Outlet(reading, pushed) == Offer(old(Outlet(reading, pushed)), data, pushResult)
    {
      if reading {
        reading := pushResult;
        pushed := pushed + [data];
      }
    }

    /** The `read` hook: the consumer asks for data. */
    method Read()
      modifies this`reading
      ensures reading && pushed == old(pushed)
    {
      reading := true;
    }
  }
}
