/** Congestion control of a channel: handleCongestion of nxcomp/src/Channel.cpp. */
module Congestion {

  datatype Code = Begin | End

  /** The codes alternate, beginning with Begin unless the channel was congested before. */
  predicate Alternating(codes: seq<Code>, congested: bool) {
    codes == [] || (codes[0] == (if congested then End else Begin) && Alternating(codes[1..], !congested))
  }

  /** The state that the last code has told, if there was one. */
  predicate Told(codes: seq<Code>, congested: bool) {
    if codes == [] then congested else codes[|codes| - 1] == Begin
  }

  /** The codes for a run of observations. */
  function Codes(congested: bool, observed: seq<bool>): seq<Code>
    decreases |observed|
  {
    if observed == [] then []
    else (if observed[0] == congested then [] else [if observed[0] then Begin else End]) + Codes(observed[0], observed[1..])
  }

  lemma {:induction false} AlternatingAppend(codes: seq<Code>, was: bool, code: Code)
    requires Alternating(codes, was) && code == (if Told(codes, was) then End else Begin)
    ensures Alternating(codes + [code], was)
  {
    if codes != [] {
      assert (codes + [code])[1..] == codes[1..] + [code];
      AlternatingAppend(codes[1..], !was, code);
    }
  }

  /** Over every run of observations the codes alternate, and the last one tells the last
      observation: the other side always knows the state of the channel. */
  lemma {:induction false} CodesAlternate(congested: bool, observed: seq<bool>)
    ensures Alternating(Codes(congested, observed), congested)
    ensures Told(Codes(congested, observed), congested) == if observed == [] then congested else observed[|observed| - 1]
    decreases |observed|
  {
    if observed != [] {
      CodesAlternate(observed[0], observed[1..]);
      var rest := Codes(observed[0], observed[1..]);
      if observed[0] != congested {
        assert Codes(congested, observed) == [if observed[0] then Begin else End] + rest;
        assert Codes(congested, observed)[1..] == rest;
      } else {
        assert Codes(congested, observed) == rest;
      }
    }
  }

  class Channel {
    var congestion: bool
    var finish: bool
    /** The codes handed to the proxy, sent or not. */
    ghost var issued: seq<Code>

    ghost predicate Valid()
      reads this
    {
      Alternating(issued, false) && Told(issued, false) == congestion
    }

    constructor ()
      ensures Valid() && issued == [] && !finish
    {
      congestion, finish, issued := false, false, [];
    }

    /** handleCongestion, at the end of each flush and drain.  The state is noted before the code
        is sent, so that it is right even when sending fails. */
    method HandleCongestion(isCongested: bool, sendFails: bool) returns (result: int)
      requires Valid()
      modifies this
      ensures Valid() && congestion == isCongested
      ensures issued == old(issued) + Codes(old(congestion), [isCongested])
      ensures result == (if isCongested != old(congestion) && sendFails then -1 else 1)
      ensures finish == (old(finish) || result == -1)
    {
      result := 1;
      assert [isCongested][1..] == [];
      if isCongested {
        if !congestion {
          AlternatingAppend(issued, false, Begin);
          congestion := true;
          issued := issued + [Begin];
          if sendFails {
            finish := true;
            return -1;
          }
        }
      } else if congestion {
        AlternatingAppend(issued, false, End);
        congestion := false;
        issued := issued + [End];
        if sendFails {
          finish := true;
          return -1;
        }
      }
    }
  }
}
