/** Merging chat messages into strictly alternating turns, as the Anthropic and Gemini adapters do. */
module TurnMerging {
  datatype Role = User | Model

  datatype Turn<B> = Turn(role: Role, blocks: seq<B>)

  /** The adapters' `push`: an empty piece is dropped, a piece of the last turn's role joins it. */
  function Push<B>(turns: seq<Turn<B>>, role: Role, blocks: seq<B>): seq<Turn<B>> {
    if blocks == [] then turns
    else
      var n := |turns| - 1;
      if n >= 0 && turns[n].role == role then turns[n := Turn(role, turns[n].blocks + blocks)]
      else turns + [Turn(role, blocks)]
  }

  /** The (role, block) pairs of a list of turns, in order. */
  function Flat<B>(turns: seq<Turn<B>>): seq<(Role, B)> {
    if turns == [] then [] else Tagged(turns[0]) + Flat(turns[1..])
  }

  function Tagged<B>(t: Turn<B>): (r: seq<(Role, B)>)
    ensures |r| == |t.blocks| && forall k :: 0 <= k < |r| ==> r[k] == (t.role, t.blocks[k])
  {
    seq(|t.blocks|, k requires 0 <= k < |t.blocks| => (t.role, t.blocks[k]))
  }

  /** Roles strictly alternate and no turn is empty. */
  ghost predicate Normal<B>(turns: seq<Turn<B>>) {
    && (forall k :: 0 <= k < |turns| ==> turns[k].blocks != [])
    && forall k :: 0 < k < |turns| ==> turns[k].role != turns[k - 1].role
  }

  lemma {:induction false} FlatAppend<B>(a: seq<Turn<B>>, b: seq<Turn<B>>)
    ensures Flat(a + b) == Flat(a) + Flat(b)
  {
    if a == [] {
      assert a + b == b;
    } else {
      assert (a + b)[1..] == a[1..] + b;
      FlatAppend(a[1..], b);
    }
  }

  lemma {:induction false} FlatOne<B>(t: Turn<B>)
    ensures Flat([t]) == Tagged(t)
  {
    assert [t][1..] == [];
  }

  lemma {:induction false} TaggedConcat<B>(role: Role, x: seq<B>, y: seq<B>)
    ensures Tagged(Turn(role, x + y)) == Tagged(Turn(role, x)) + Tagged(Turn(role, y))
  {
  }

  lemma {:induction false} NothingPushed<B>()
    ensures Normal<B>([]) && Flat<B>([]) == []
  {
  }

  /** Growing the last turn adds pairs at the end. */
  lemma {:induction false} FlatGrown<B>(front: seq<Turn<B>>, last: Turn<B>, blocks: seq<B>)
    ensures Flat(front + [Turn(last.role, last.blocks + blocks)])
      == Flat(front + [last]) + Tagged(Turn(last.role, blocks))
  {
    var grown := Turn(last.role, last.blocks + blocks);
    FlatAppend(front, [last]);
    FlatAppend(front, [grown]);
    FlatOne(last);
    FlatOne(grown);
    TaggedConcat(last.role, last.blocks, blocks);
  }

  /** `push` keeps the turns in normal form and adds exactly its own pairs at the end. */
  lemma {:induction false} PushKeepsNormal<B>(turns: seq<Turn<B>>, role: Role, blocks: seq<B>)
    requires Normal(turns)
    ensures Normal(Push(turns, role, blocks))
    ensures Flat(Push(turns, role, blocks)) == Flat(turns) + Tagged(Turn(role, blocks))
  {
    hide Flat;
    var piece, n := Turn(role, blocks), |turns| - 1;
    if blocks == [] {
      assert Tagged(piece) == [];
    } else if n >= 0 && turns[n].role == role {
      var grown := Turn(role, turns[n].blocks + blocks);
      assert turns == turns[..n] + [turns[n]] && turns[n := grown] == turns[..n] + [grown];
      FlatGrown(turns[..n], turns[n], blocks);
    } else {
      FlatAppend(turns, [piece]);
      FlatOne(piece);
    }
  }

  lemma {:induction false} FlatHead<B>(a: seq<Turn<B>>)
    requires a != []
    ensures |Flat(a)| == |a[0].blocks| + |Flat(a[1..])|
    ensures forall k :: 0 <= k < |a[0].blocks| ==> Flat(a)[k] == (a[0].role, a[0].blocks[k])
    ensures forall k :: |a[0].blocks| <= k < |Flat(a)| ==> Flat(a)[k] == Flat(a[1..])[k - |a[0].blocks|]
  {
  }

  lemma {:induction false} FlatEmpty<B>(a: seq<Turn<B>>)
    requires Normal(a)
    ensures Flat(a) == [] <==> a == []
  {
  }

  lemma {:induction false} FirstTurnNoLonger<B>(a: seq<Turn<B>>, b: seq<Turn<B>>)
    requires Normal(a) && Normal(b) && Flat(a) == Flat(b) && a != [] && b != []
    ensures |a[0].blocks| >= |b[0].blocks| && a[0].role == b[0].role
  {
    hide Flat;
    FlatHead(a);
    FlatHead(b);
    FlatEmpty(a[1..]);
    assert Flat(a)[0] == (a[0].role, a[0].blocks[0]) && Flat(b)[0] == (b[0].role, b[0].blocks[0]);
    if |a| > 1 {
      FlatHead(a[1..]);
      var n := |a[0].blocks|;
      assert Flat(a)[n] == Flat(a[1..])[0] == (a[1].role, a[1].blocks[0]);
    }
  }

  /** No two different normal forms have the same pairs. */
  lemma {:induction false} NormalFormIsUnique<B>(a: seq<Turn<B>>, b: seq<Turn<B>>)
    requires Normal(a) && Normal(b) && Flat(a) == Flat(b)
    ensures a == b
  {
    hide Flat;
    FlatEmpty(a);
    FlatEmpty(b);
    if a != [] {
      FirstTurnNoLonger(a, b);
      FirstTurnNoLonger(b, a);
      FlatHead(a);
      FlatHead(b);
      var n := |a[0].blocks|;
      assert forall k :: 0 <= k < n ==> Flat(a)[k] == (a[0].role, a[0].blocks[k]) && Flat(b)[k] == (b[0].role, b[0].blocks[k]);
      assert a[0].blocks == b[0].blocks;
      assert Flat(a)[n..] == Flat(a[1..]) && Flat(b)[n..] == Flat(b[1..]);
      NormalFormIsUnique(a[1..], b[1..]);
      assert a == [a[0]] + a[1..] && b == [b[0]] + b[1..];
    }
  }
}
