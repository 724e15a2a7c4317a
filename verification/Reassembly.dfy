/**
 Messages out of frames (section 5.4 of RFC 6455): payloads add up until a final frame completes the message, and the
 frames after it are read in the same way.
 */
module Reassembly {

  datatype Frame = Frame(payload: string, fin: bool)

  function Concat(texts: seq<string>): string {
    if texts == [] then "" else texts[0] + Concat(texts[1..])
  }

  function Payload(frames: seq<Frame>): string {
    if frames == [] then "" else frames[0].payload + Payload(frames[1..])
  }

  /** The messages completed by the frames, when a message has begun with the text `begun`. */
  function MessagesFrom(begun: string, frames: seq<Frame>): seq<string>
    decreases frames
  {
    if frames == [] then []
    else if frames[0].fin then [begun + frames[0].payload] + MessagesFrom("", frames[1..])
    else MessagesFrom(begun + frames[0].payload, frames[1..])
  }

  /** The message that has begun when the frames are read. */
  function RestFrom(begun: string, frames: seq<Frame>): string
    decreases frames
  {
    if frames == [] then begun else RestFrom(if frames[0].fin then "" else begun + frames[0].payload, frames[1..])
  }

  function Messages(frames: seq<Frame>): seq<string> {
    MessagesFrom("", frames)
  }

  function Rest(frames: seq<Frame>): string {
    RestFrom("", frames)
  }

  /** What a receiver that keeps only the begun message has to do for the next frame. */
  lemma {:induction false} Receive(begun: string, frames: seq<Frame>, f: Frame)
    ensures MessagesFrom(begun, frames + [f]) == MessagesFrom(begun, frames) + if f.fin then [RestFrom(begun, frames) + f.payload] else []
    ensures RestFrom(begun, frames + [f]) == if f.fin then "" else RestFrom(begun, frames) + f.payload
    decreases frames
  {
    if frames == [] {
      assert frames + [f] == [f];
    } else {
      assert (frames + [f])[1..] == frames[1..] + [f];
      Receive(if frames[0].fin then "" else begun + frames[0].payload, frames[1..], f);
    }
  }

  lemma InTurn(a: string, b: string, c: string)
    ensures (a + b) + c == a + (b + c)
  {
  }

  /** Conservation: the messages and the begun rest hold every payload, in order and once. */
  lemma {:induction false} NoPayloadIsLost(begun: string, frames: seq<Frame>)
    ensures Concat(MessagesFrom(begun, frames)) + RestFrom(begun, frames) == begun + Payload(frames)
    decreases frames
  {
    if frames != [] {
      var f, more := frames[0], frames[1..];
      InTurn(begun, f.payload, Payload(more));
      if f.fin {
        NoPayloadIsLost("", more);
        ConcatFirst(begun + f.payload, MessagesFrom("", more));
        InTurn(begun + f.payload, Concat(MessagesFrom("", more)), RestFrom("", more));
        assert "" + Payload(more) == Payload(more);
      } else {
        NoPayloadIsLost(begun + f.payload, more);
      }
    }
  }

  lemma ConcatFirst(text: string, texts: seq<string>)
    ensures Concat([text] + texts) == text + Concat(texts)
  {
    assert ([text] + texts)[1..] == texts;
  }

  function Finals(frames: seq<Frame>): nat {
    if frames == [] then 0 else (if frames[0].fin then 1 else 0) + Finals(frames[1..])
  }

  lemma {:induction false} OneMessagePerFinal(begun: string, frames: seq<Frame>)
    ensures |MessagesFrom(begun, frames)| == Finals(frames)
    decreases frames
  {
    if frames != [] {
      OneMessagePerFinal(if frames[0].fin then "" else begun + frames[0].payload, frames[1..]);
    }
  }

  /** A fragmented message: at least one frame, and only the last one is final. */
  predicate Fragments(frames: seq<Frame>) {
    frames != [] && frames[|frames| - 1].fin && forall k :: 0 <= k < |frames| - 1 ==> !frames[k].fin
  }

  function Sequence(parts: seq<seq<Frame>>, tail: seq<Frame>): seq<Frame> {
    if parts == [] then tail else parts[0] + Sequence(parts[1..], tail)
  }

  lemma {:induction false} MessageFirst(begun: string, part: seq<Frame>, more: seq<Frame>)
    requires Fragments(part)
    ensures MessagesFrom(begun, part + more) == [begun + Payload(part)] + MessagesFrom("", more)
    ensures RestFrom(begun, part + more) == RestFrom("", more)
    decreases part
  {
    var next := part[1..];
    assert (part + more)[1..] == next + more;
    if next == [] {
      assert next + more == more;
      assert Payload(part) == part[0].payload;
    } else {
      MessageFirst(begun + part[0].payload, next, more);
      InTurn(begun, part[0].payload, Payload(next));
    }
  }

  lemma {:induction false} NoMessageYet(begun: string, frames: seq<Frame>)
    requires forall k :: 0 <= k < |frames| ==> !frames[k].fin
    ensures MessagesFrom(begun, frames) == [] && RestFrom(begun, frames) == begun + Payload(frames)
    decreases frames
  {
    if frames != [] {
      NoMessageYet(begun + frames[0].payload, frames[1..]);
    }
  }

  /** Messages sent one after the other, each in any number of fragments, arrive as they were sent, and what was sent of
      the next one waits. */
  lemma {:induction false} FragmentedMessagesArrive(parts: seq<seq<Frame>>, tail: seq<Frame>)
    requires forall k :: 0 <= k < |parts| ==> Fragments(parts[k])
    requires forall k :: 0 <= k < |tail| ==> !tail[k].fin
    ensures |Messages(Sequence(parts, tail))| == |parts| && Rest(Sequence(parts, tail)) == Payload(tail)
    ensures forall k :: 0 <= k < |parts| ==> Messages(Sequence(parts, tail))[k] == Payload(parts[k])
  {
    if parts == [] {
      NoMessageYet("", tail);
    } else {
      FragmentedMessagesArrive(parts[1..], tail);
      MessageFirst("", parts[0], Sequence(parts[1..], tail));
    }
  }
}
