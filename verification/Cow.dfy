/** Copy-on-write sharing of user pages over reference-counted frames, seen as a flat
    map from pages to entries. */
module Cow {
  import opened PageEntry
  import Pmm

  type Byte = b: int | 0 <= b < 256
  type Bytes = s: seq<Byte> | |s| == Pmm.PAGE_SIZE witness seq(Pmm.PAGE_SIZE, _ => 0)

  /** `leaf` holds the present 4 KiB entries of all user spaces, `live` the frames in
      use as user pages, `held` the references kept outside page tables. */
  datatype World = World(leaf: map<Slot, Entry>, refs: seq<Pmm.Count>, live: set<Frame>,
                         held: multiset<Frame>, data: map<Frame, Bytes>)

  ghost function Mappers(leaf: map<Slot, Entry>, f: Frame): set<Slot> {
    set s | s in leaf && leaf[s].frame == f
  }

  ghost predicate LeavesOk(w: World) {
    forall s :: s in w.leaf ==> w.leaf[s].present && w.leaf[s].frame in w.live
  }

  /** Every reference is accounted for: page-table entries plus outside holders. */
  ghost predicate CountsOk(w: World) {
    && |w.refs| == Pmm.MAX_PAGES
    && (forall f :: f in w.live ==> f < Pmm.MAX_PAGES && f in w.data)
    && (forall f :: f in w.live ==> w.refs[f] >= 1 && w.refs[f] == |Mappers(w.leaf, f)| + w.held[f])
    && (forall f :: f in w.held ==> f in w.live)
  }

  ghost predicate WritersAlone(w: World)
    requires LeavesOk(w) && CountsOk(w)
  {
    forall s :: s in w.leaf && w.leaf[s].writable ==> w.refs[w.leaf[s].frame] == 1
  }

  ghost predicate SharedInPlace(w: World) {
    forall s, t :: s in w.leaf && t in w.leaf && w.leaf[s].frame == w.leaf[t].frame ==> SamePage(s, t)
  }

  ghost predicate Inv(w: World) {
    LeavesOk(w) && CountsOk(w) && WritersAlone(w) && SharedInPlace(w)
  }

  // ----- counting mappers -----

  lemma MappersAdd(leaf: map<Slot, Entry>, s: Slot, e: Entry, f: Frame)
    requires s !in leaf
    ensures |Mappers(leaf[s := e], f)| == |Mappers(leaf, f)| + if e.frame == f then 1 else 0
  {
    if e.frame == f {
      assert Mappers(leaf[s := e], f) == Mappers(leaf, f) + {s};
    } else {
      assert Mappers(leaf[s := e], f) == Mappers(leaf, f);
    }
  }

  lemma MappersDrop(leaf: map<Slot, Entry>, s: Slot, f: Frame)
    requires s in leaf
    ensures |Mappers(leaf, f)| == |Mappers(leaf - {s}, f)| + if leaf[s].frame == f then 1 else 0
  {
    if leaf[s].frame == f {
      assert Mappers(leaf, f) == Mappers(leaf - {s}, f) + {s};
    } else {
      assert Mappers(leaf, f) == Mappers(leaf - {s}, f);
    }
  }

  /** Rewriting an entry in place without moving it to another frame changes no count. */
  lemma MappersSame(leaf: map<Slot, Entry>, s: Slot, e: Entry, f: Frame)
    requires s in leaf && e.frame == leaf[s].frame
    ensures Mappers(leaf[s := e], f) == Mappers(leaf, f)
  {
  }

  lemma MappersMove(leaf: map<Slot, Entry>, s: Slot, e: Entry, f: Frame)
    requires s in leaf && e.frame != leaf[s].frame
    ensures |Mappers(leaf[s := e], f)| ==
            |Mappers(leaf, f)| + (if e.frame == f then 1 else 0) - (if leaf[s].frame == f then 1 else 0)
  {
    MappersDrop(leaf, s, f);
    MappersAdd(leaf - {s}, s, e, f);
    assert (leaf - {s})[s := e] == leaf[s := e];
  }

  lemma SoleMapper(w: World, s: Slot, t: Slot)
    requires Inv(w) && s in w.leaf && t in w.leaf && w.leaf[s].frame == w.leaf[t].frame
    requires w.refs[w.leaf[s].frame] == 1
    ensures s == t && w.held[w.leaf[s].frame] == 0
  {
    var m := Mappers(w.leaf, w.leaf[s].frame);
    assert s in m && t in m;
    if s != t {
      assert {s, t} <= m;
      SubsetSize({s, t}, m);
    } else {
      SubsetSize({s}, m);
    }
  }

  lemma SubsetSize<T>(a: set<T>, b: set<T>)
    requires a <= b
    ensures |a| <= |b|
  {
    assert b == a + (b - a);
  }

  // ----- micro-steps -----

  /** Fork shares the page of `s` with the empty slot `t`. */
  ghost function Share(w: World, s: Slot, t: Slot): World
    requires s in w.leaf && w.leaf[s].frame < |w.refs|
  {
    var e := CowMark(w.leaf[s]);
    var f := e.frame;
    w.(leaf := w.leaf[s := e][t := e],
       refs := if w.refs[f] == Pmm.REF_MAX then w.refs else w.refs[f := w.refs[f] + 1])
  }

  lemma ShareKeepsInv(w: World, s: Slot, t: Slot)
    requires Inv(w) && s in w.leaf && t !in w.leaf && SamePage(s, t)
    requires w.refs[w.leaf[s].frame] < Pmm.REF_MAX
    ensures Inv(Share(w, s, t))
  {
    ShareKeepsCounts(w, s, t);
    ShareKeepsPlaces(w, s, t);
    var w' := Share(w, s, t);
    forall x | x in w'.leaf && w'.leaf[x].writable
      ensures w'.refs[w'.leaf[x].frame] == 1
    {
      if x != s && x != t && w.leaf[x].frame == w.leaf[s].frame {
        SoleMapper(w, x, s);
      }
    }
  }

  lemma ShareKeepsPlaces(w: World, s: Slot, t: Slot)
    requires Inv(w) && s in w.leaf && t !in w.leaf && SamePage(s, t)
    ensures SharedInPlace(Share(w, s, t))
  {
    var leaf' := Share(w, s, t).leaf;
    forall x, y | x in leaf' && y in leaf' && leaf'[x].frame == leaf'[y].frame
      ensures SamePage(x, y)
    {
      var x0 := if x == t then s else x;
      var y0 := if y == t then s else y;
      assert w.leaf[x0].frame == leaf'[x].frame && w.leaf[y0].frame == leaf'[y].frame;
      assert SamePage(x0, y0);
    }
  }

  lemma ShareKeepsCounts(w: World, s: Slot, t: Slot)
    requires Inv(w) && s in w.leaf && t !in w.leaf
    requires w.refs[w.leaf[s].frame] < Pmm.REF_MAX
    ensures LeavesOk(Share(w, s, t)) && CountsOk(Share(w, s, t))
  {
    var w' := Share(w, s, t);
    var e := CowMark(w.leaf[s]);
    forall f | f in w'.live
      ensures w'.refs[f] == |Mappers(w'.leaf, f)| + w'.held[f]
    {
      MappersSame(w.leaf, s, e, f);
      MappersAdd(w.leaf[s := e], t, e, f);
    }
  }

  /** The count stays exact under sharing if and only if the counter is not saturated. */
  lemma ShareExactIff(w: World, s: Slot, t: Slot)
    requires Inv(w) && s in w.leaf && t !in w.leaf && SamePage(s, t)
    ensures Inv(Share(w, s, t)) <==> w.refs[w.leaf[s].frame] < Pmm.REF_MAX
  {
    if w.refs[w.leaf[s].frame] < Pmm.REF_MAX {
      ShareKeepsInv(w, s, t);
    } else {
      var e := CowMark(w.leaf[s]);
      MappersSame(w.leaf, s, e, e.frame);
      MappersAdd(w.leaf[s := e], t, e, e.frame);
    }
  }

  /** Giving back the reference that the entry at `s` stands for. */
  ghost function Drop(w: World, s: Slot): World
    requires s in w.leaf && w.leaf[s].frame < |w.refs|
  {
    var f := w.leaf[s].frame;
    if w.refs[f] > 1
    then w.(leaf := w.leaf - {s}, refs := w.refs[f := w.refs[f] - 1])
    else w.(leaf := w.leaf - {s}, refs := w.refs[f := 0], live := w.live - {f})
  }

  lemma DropKeepsInv(w: World, s: Slot)
    requires Inv(w) && s in w.leaf
    ensures Inv(Drop(w, s))
  {
    var w' := Drop(w, s);
    var f := w.leaf[s].frame;
    forall g | g in w.live
      ensures |Mappers(w.leaf, g)| == |Mappers(w'.leaf, g)| + if f == g then 1 else 0
    {
      MappersDrop(w.leaf, s, g);
    }
    if w.refs[f] == 1 {
      forall t | t in w'.leaf
        ensures w'.leaf[t].frame in w'.live
      {
        if w.leaf[t].frame == f {
          SoleMapper(w, s, t);
        }
      }
      SoleMapper(w, s, s);
    }
    forall x | x in w'.leaf && w'.leaf[x].writable
      ensures w'.refs[w'.leaf[x].frame] == 1
    {
      if w.leaf[x].frame == f {
        SoleMapper(w, x, s);
      }
    }
  }

  /** An entry leaves the page tables while its reference lives on outside them. */
  ghost function Orphan(w: World, s: Slot): World
    requires s in w.leaf
  {
    w.(leaf := w.leaf - {s}, held := w.held + multiset{w.leaf[s].frame})
  }

  lemma OrphanKeepsInv(w: World, s: Slot)
    requires Inv(w) && s in w.leaf
    ensures Inv(Orphan(w, s))
  {
    var w' := Orphan(w, s);
    forall g | g in w.live
      ensures w'.refs[g] == |Mappers(w'.leaf, g)| + w'.held[g]
    {
      MappersDrop(w.leaf, s, g);
    }
  }

  /** A freshly allocated frame, held by its allocator. */
  ghost function Hold(w: World, f: Frame, bytes: Bytes): World
    requires f < |w.refs|
  {
    w.(refs := w.refs[f := 1], live := w.live + {f}, held := w.held + multiset{f}, data := w.data[f := bytes])
  }

  lemma HoldKeepsInv(w: World, f: Frame, bytes: Bytes)
    requires Inv(w) && f < Pmm.MAX_PAGES && f !in w.live
    ensures Inv(Hold(w, f, bytes))
  {
    var w' := Hold(w, f, bytes);
    assert Mappers(w'.leaf, f) == {};
  }

  /** Mapping a held frame at an empty slot: the reference passes to the entry. */
  ghost function MapHeld(w: World, s: Slot, e: Entry): World {
    w.(leaf := w.leaf[s := e], held := w.held - multiset{e.frame})
  }

  lemma MapHeldKeepsInv(w: World, s: Slot, e: Entry)
    requires Inv(w) && s !in w.leaf && e.present && e.frame in w.live
    requires w.refs[e.frame] == 1 && w.held[e.frame] == 1
    ensures Inv(MapHeld(w, s, e))
  {
    MapHeldKeepsCounts(w, s, e);
    forall t | t in w.leaf
      ensures w.leaf[t].frame != e.frame
    {
      if w.leaf[t].frame == e.frame {
        SoleMapper(w, t, t);
      }
    }
  }

  lemma MapHeldKeepsCounts(w: World, s: Slot, e: Entry)
    requires Inv(w) && s !in w.leaf && e.present && e.frame in w.live && w.held[e.frame] >= 1
    ensures LeavesOk(MapHeld(w, s, e)) && CountsOk(MapHeld(w, s, e))
  {
    var w' := MapHeld(w, s, e);
    forall g | g in w.live
      ensures w'.refs[g] == |Mappers(w'.leaf, g)| + w'.held[g]
    {
      MappersAdd(w.leaf, s, e, g);
    }
  }

  /** Releasing a held reference. */
  ghost function Unhold(w: World, f: Frame): World
    requires f < |w.refs|
  {
    if w.refs[f] > 1
    then w.(refs := w.refs[f := w.refs[f] - 1], held := w.held - multiset{f})
    else w.(refs := w.refs[f := 0], held := w.held - multiset{f}, live := w.live - {f})
  }

  lemma UnholdKeepsInv(w: World, f: Frame)
    requires Inv(w) && f in w.held
    ensures Inv(Unhold(w, f))
  {
    var w' := Unhold(w, f);
    forall s | s in w.leaf && w.leaf[s].frame == f
      ensures w.refs[f] > 1 && !w.leaf[s].writable
    {
      if w.refs[f] == 1 {
        SoleMapper(w, s, s);
      }
    }
  }

  // ----- fault handling -----

  /** The last holder of a copy-on-write page takes it over in place. */
  ghost function Reclaim(w: World, s: Slot): World
    requires s in w.leaf
  {
    w.(leaf := w.leaf[s := w.leaf[s].(writable := true, cow := false)])
  }

  /** A shared page is copied into the fresh frame `g`. */
  ghost function CopyOut(w: World, s: Slot, g: Frame): World
    requires s in w.leaf && w.leaf[s].frame < |w.refs| && g < |w.refs| && w.leaf[s].frame in w.data
  {
    var e := w.leaf[s];
    var f := e.frame;
    w.(leaf := w.leaf[s := e.(frame := g, writable := true, cow := false)],
       refs := w.refs[g := 1][f := if f == g then 1 else if w.refs[f] > 1 then w.refs[f] - 1 else 0],
       live := w.live + {g},
       data := w.data[g := w.data[f]])
  }

  lemma ReclaimKeepsInv(w: World, s: Slot)
    requires Inv(w) && s in w.leaf && w.refs[w.leaf[s].frame] == 1
    ensures Inv(Reclaim(w, s))
  {
    var w' := Reclaim(w, s);
    forall f | f in w.live
      ensures Mappers(w'.leaf, f) == Mappers(w.leaf, f)
    {
      MappersSame(w.leaf, s, w'.leaf[s], f);
    }
  }

  lemma CopyOutKeepsInv(w: World, s: Slot, g: Frame)
    requires Inv(w) && s in w.leaf && g < Pmm.MAX_PAGES && g !in w.live
    requires w.refs[w.leaf[s].frame] > 1
    ensures Inv(CopyOut(w, s, g))
  {
    CopyOutKeepsCounts(w, s, g);
    var w' := CopyOut(w, s, g);
    forall x | x in w'.leaf && w'.leaf[x].writable
      ensures w'.refs[w'.leaf[x].frame] == 1
    {
      if x != s && w.leaf[x].frame == w.leaf[s].frame {
        SoleMapper(w, x, s);
      }
    }
  }

  lemma CopyOutKeepsCounts(w: World, s: Slot, g: Frame)
    requires Inv(w) && s in w.leaf && g < Pmm.MAX_PAGES && g !in w.live
    requires w.refs[w.leaf[s].frame] > 1
    ensures LeavesOk(CopyOut(w, s, g)) && CountsOk(CopyOut(w, s, g))
  {
    var w' := CopyOut(w, s, g);
    forall f | f in w'.live
      ensures w'.refs[f] == |Mappers(w'.leaf, f)| + w'.held[f]
    {
      MappersMove(w.leaf, s, w'.leaf[s], f);
      if f == g {
        assert Mappers(w.leaf, g) == {};
      }
    }
  }

  // ----- mapping over whatever was there -----

  /** Mapping entry `e` at `s`; a page mapped there before keeps its reference outside. */
  ghost function MapOver(w: World, s: Slot, e: Entry): World {
    var w1 := if s in w.leaf then Orphan(w, s) else w;
    if e.present then MapHeld(w1, s, e) else w1
  }

  /** A present entry needs a frame that its allocator alone holds. */
  ghost predicate FreshFor(w: World, e: Entry) {
    e.present ==>
      e.frame in w.live && e.frame < |w.refs| && w.refs[e.frame] == 1 && w.held[e.frame] == 1
  }

  lemma MapOverShape(w: World, s: Slot, e: Entry)
    ensures MapOver(w, s, e).leaf == if e.present then w.leaf[s := e] else w.leaf - {s}
    ensures MapOver(w, s, e).refs == w.refs && MapOver(w, s, e).live == w.live && MapOver(w, s, e).data == w.data
  {
    if s in w.leaf {
      assert (w.leaf - {s})[s := e] == w.leaf[s := e];
    } else {
      assert w.leaf - {s} == w.leaf;
    }
  }

  lemma MapOverKeepsInv(w: World, s: Slot, e: Entry)
    requires Inv(w) && FreshFor(w, e)
    ensures Inv(MapOver(w, s, e))
    ensures MapOver(w, s, e).leaf == if e.present then w.leaf[s := e] else w.leaf - {s}
    ensures MapOver(w, s, e).refs == w.refs && MapOver(w, s, e).live == w.live
  {
    MapOverShape(w, s, e);
    if s in w.leaf {
      OrphanKeepsInv(w, s);
      if e.present && w.leaf[s].frame == e.frame {
        SoleMapper(w, s, s);
      }
    }
    hide Inv;
    if e.present {
      MapHeldKeepsInv(if s in w.leaf then Orphan(w, s) else w, s, e);
    }
  }
}
