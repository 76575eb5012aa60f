/** A stream that arrives in pieces. */
module Pieces {

  function Join<T>(pieces: seq<seq<T>>): seq<T> {
    if pieces == [] then [] else pieces[0] + Join(pieces[1..])
  }

  lemma {:induction false} JoinSplit<T>(pieces: seq<seq<T>>, i: nat)
    requires i <= |pieces|
    ensures Join(pieces) == Join(pieces[..i]) + Join(pieces[i..])
  {
    if i == 0 {
      assert pieces[..0] == [] && pieces[0..] == pieces;
    } else {
      JoinSplit(pieces[1..], i - 1);
      assert pieces[..i][1..] == pieces[1..][..i - 1] && pieces[i..] == pieces[1..][i - 1..];
    }
  }

  lemma JoinSnoc<T>(pieces: seq<seq<T>>, i: nat)
    requires i < |pieces|
    ensures Join(pieces[..i + 1]) == Join(pieces[..i]) + pieces[i]
  {
    JoinSplit(pieces[..i + 1], i);
    assert pieces[..i + 1][..i] == pieces[..i] && pieces[..i + 1][i..] == [pieces[i]];
    assert Join([pieces[i]]) == pieces[i] by {
      var one: seq<seq<T>> := [pieces[i]];
      assert one[1..] == [] && pieces[i] + [] == pieces[i];
    }
  }
}
