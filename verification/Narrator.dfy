/** The streaming narrator of shared/ai-chat.ts: it shows a reply as it arrives and stops at a tool request. */
module Narrator {
  import opened JsText

  const TOOL_FENCE: Text := Lit("```tool")
  const FENCE_HOLDBACK: nat := 6

  function Concat(parts: seq<Text>): Text {
    if parts == [] then [] else Concat(parts[..|parts| - 1]) + parts[|parts| - 1]
  }

  /** How much of the text seen so far may be shown. */
  function Visible(seen: Text): (n: nat)
    ensures n <= |seen|
  {
    var fence := IndexOf(seen, TOOL_FENCE);
    if fence != -1 then fence
    else if |seen| <= FENCE_HOLDBACK then 0
    else |seen| - FENCE_HOLDBACK
  }

  lemma FenceLength()
    ensures |TOOL_FENCE| == FENCE_HOLDBACK + 1
  {}

  lemma AtInPrefix(x: Text, y: Text, i: int)
    requires i + |TOOL_FENCE| <= |x|
    ensures At(x + y, TOOL_FENCE, i) <==> At(x, TOOL_FENCE, i)
  {
    if 0 <= i {
      assert (x + y)[i..i + |TOOL_FENCE|] == x[i..i + |TOOL_FENCE|];
    }
  }

  /** Nothing shown is at or past a fence that only later text completes. */
  lemma VisibleBeforeFence(x: Text, y: Text, i: int)
    requires At(x + y, TOOL_FENCE, i)
    ensures Visible(x) <= i
  {
    FenceLength();
    if i + |TOOL_FENCE| <= |x| {
      AtInPrefix(x, y, i);
    }
  }

  /** More text never takes back what was shown. */
  lemma VisibleGrows(x: Text, y: Text)
    ensures Visible(x) <= Visible(x + y)
  {
    var fence := IndexOf(x + y, TOOL_FENCE);
    if fence != -1 {
      VisibleBeforeFence(x, y, fence);
    } else {
      var early := IndexOf(x, TOOL_FENCE);
      if early != -1 {
        AtInPrefix(x, y, early);
      }
    }
  }

  class StreamNarrator {
    var seen: Text
    var sent: nat
    /** The `delta` events, in the order `emit` received them. */
    var deltas: seq<Text>

    ghost predicate Valid()
      reads this
    {
      sent <= |seen| && Concat(deltas) == seen[..sent] && forall d | d in deltas :: d != []
    }

    /** Between tokens, exactly what may be shown has been sent. */
    ghost predicate Ready()
      reads this
    {
      Valid() && sent == Visible(seen)
    }

    constructor ()
      ensures Valid() && seen == [] && sent == 0 && deltas == []
    {
      seen, sent, deltas := [], 0, [];
    }

    method Advance(upto: nat)
      requires Valid() && upto <= |seen|
      modifies this
      ensures Valid() && seen == old(seen) && old(deltas) <= deltas
      ensures sent == if upto > old(sent) then upto else old(sent)
    {
      if upto > sent {
        var d := seen[sent..upto];
        assert (deltas + [d])[..|deltas|] == deltas;
        assert seen[..sent] + d == seen[..upto];
        deltas := deltas + [d];
        sent := upto;
      }
    }

    method Token(token: Text)
      requires Ready()
      modifies this
      ensures Ready() && seen == old(seen) + token && old(deltas) <= deltas
    {
      VisibleGrows(seen, token);
      assert (seen + token)[..sent] == seen[..sent];
      seen := seen + token;
      var fence := IndexOf(seen, TOOL_FENCE);
      Advance(if fence != -1 then fence else if |seen| <= FENCE_HOLDBACK then 0 else |seen| - FENCE_HOLDBACK);
    }

    method Flush()
      requires Valid()
      modifies this
      ensures Valid() && seen == old(seen) && old(deltas) <= deltas
      ensures sent == |seen| && Concat(deltas) == seen
    {
      Advance(|seen|);
      assert seen[..sent] == seen;
    }
  }

  /** A round's tokens, told as they come: so far exactly what may be shown is shown. */
  method Listen(tokens: seq<Text>) returns (narrator: StreamNarrator)
    ensures fresh(narrator) && narrator.Ready() && narrator.seen == Concat(tokens)
  {
    narrator := new StreamNarrator();
    for i := 0 to |tokens|
      invariant narrator.Ready() && fresh(narrator)
      invariant narrator.seen == Concat(tokens[..i])
    {
      assert tokens[..i + 1][..i] == tokens[..i];
      narrator.Token(tokens[i]);
    }
    assert tokens[..|tokens|] == tokens;
  }

  /** What the operator sees of a reply, however it was cut into tokens: what comes before its first fence; all of a
      reply without one; and of a blank reply, which ends its turn unflushed, all but the characters held back. */
  method Narrate(tokens: seq<Text>) returns (narrator: StreamNarrator)
    ensures fresh(narrator) && narrator.Valid()
    ensures var reply := Concat(tokens);
      Concat(narrator.deltas) ==
        if Contains(reply, TOOL_FENCE) then reply[..IndexOf(reply, TOOL_FENCE)]
        else if Trim(reply) != [] then reply
        else if |reply| <= FENCE_HOLDBACK then []
        else reply[..|reply| - FENCE_HOLDBACK]
  {
    narrator := Listen(tokens);
    if Trim(narrator.seen) != [] && IndexOf(narrator.seen, TOOL_FENCE) == -1 {
      narrator.Flush();
    }
  }
}
