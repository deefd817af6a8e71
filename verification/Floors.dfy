/** What lies in which room (roommgr/rmroom.cpp), from both sides: each room's list and each object's own room. */
module Floors {
  import opened LinkedLists

  datatype Floor<!R, !O> = Floor(objects: map<R, seq<O>>, room: map<O, R>)

  ghost predicate Listed<R, O>(fl: Floor<R, O>, r: R)
    requires r in fl.objects
  {
    Distinct(fl.objects[r]) && forall o <- fl.objects[r] :: o in fl.room && fl.room[o] == r
  }

  ghost predicate Lies<R, O>(fl: Floor<R, O>, o: O)
    requires o in fl.room
  {
    fl.room[o] in fl.objects && o in fl.objects[fl.room[o]]
  }

  /** A room lists, once each, exactly the objects that name it. */
  ghost predicate Agrees<R, O>(fl: Floor<R, O>) {
    && (forall r <- fl.objects :: Listed(fl, r))
    && (forall o <- fl.room :: Lies(fl, o))
  }

  /** After `o` has been picked up, if it lay anywhere. */
  ghost function Gone<R, O>(fl: Floor<R, O>, o: O): Floor<R, O> {
    if o in fl.room && fl.room[o] in fl.objects then
      Floor(fl.objects[fl.room[o] := Minus(fl.objects[fl.room[o]], {o})], fl.room - {o})
    else fl
  }

  ghost function Laid<R, O>(fl: Floor<R, O>, o: O, r: R): Floor<R, O>
    requires r in fl.objects
  {
    Floor(fl.objects[r := fl.objects[r] + [o]], fl.room[o := r])
  }

  /** Another room, with nothing in it. */
  lemma OpenedAgrees<R, O>(fl: Floor<R, O>, r: R)
    requires Agrees(fl) && r !in fl.objects
    ensures Agrees(Floor(fl.objects[r := []], fl.room))
  {
    forall q <- fl.objects
      ensures Listed(Floor(fl.objects[r := []], fl.room), q)
    {
      assert Listed(fl, q);
    }
    forall o <- fl.room
      ensures Lies(Floor(fl.objects[r := []], fl.room), o)
    {
      assert Lies(fl, o);
    }
  }

  lemma GoneAgrees<R, O>(fl: Floor<R, O>, o: O)
    requires Agrees(fl)
    ensures Agrees(Gone(fl, o)) && Gone(fl, o).objects.Keys == fl.objects.Keys && Gone(fl, o).room == fl.room - {o}
  {
    if o in fl.room {
      assert Lies(fl, o);
      forall r <- fl.objects
        ensures Listed(Gone(fl, o), r)
      {
        assert Listed(fl, r);
        MinusDistinct(fl.objects[r], {o});
      }
      forall p <- fl.room
        ensures p != o ==> Lies(Gone(fl, o), p)
      {
        assert Lies(fl, p);
      }
    }
  }

  lemma LaidAgrees<R, O>(fl: Floor<R, O>, o: O, r: R)
    requires Agrees(fl) && r in fl.objects && o !in fl.room
    ensures Agrees(Laid(fl, o, r))
  {
    assert Listed(fl, r);
    DistinctAppend(fl.objects[r], o);
    forall q <- fl.objects
      ensures Listed(Laid(fl, o, r), q)
    {
      assert Listed(fl, q);
    }
    forall p <- fl.room
      ensures Lies(Laid(fl, o, r), p)
    {
      assert Lies(fl, p);
    }
  }

  /** Laying something down and picking it up again leaves the floor as it was. */
  lemma LaidGone<R, O>(fl: Floor<R, O>, o: O, r: R)
    requires Agrees(fl) && r in fl.objects && o !in fl.room
    ensures Gone(Laid(fl, o, r), o) == fl
  {
    assert Listed(fl, r);
    MinusNew(fl.objects[r], o);
    assert Gone(Laid(fl, o, r), o).objects == fl.objects;
    assert Gone(Laid(fl, o, r), o).room == fl.room;
  }
}
