/** The overlay file system: layers of one directory seen as a single directory. */
module Overlay {

  const PREFIX: string := ".wh."
  const NAME_MAX: nat := 255

  datatype Kind = File | Directory

  datatype DirEntry = DirEntry(name: string, kind: Kind)

  /** One layer of a directory; `present` if the layer has the directory at all. */
  datatype Layer = Layer(present: bool, writable: bool, entries: seq<DirEntry>)

  datatype Option<T> = None | Some(value: T)

  lemma KindCases(o: Option<Kind>)
    ensures o == None || o == Some(File) || o == Some(Directory)
  {
    if o.Some? {
      match o.value
      case File =>
      case Directory =>
    }
  }

  // ----- names -----

  predicate HasPrefix(name: string) { |name| >= |PREFIX| && name[..|PREFIX|] == PREFIX }

  /** The name of the marker that hides `name`, cut to what a name can hold. */
  function WhiteoutName(name: string): string {
    var full := PREFIX + name;
    if |full| <= NAME_MAX then full else full[..NAME_MAX]
  }

  /** Every marker is recognised as one, and so is every name that starts with ".wh.". */
  lemma MarkersRecognised(name: string)
    ensures HasPrefix(WhiteoutName(name)) && HasPrefix(".wh." + name) && |WhiteoutName(name)| <= 255
    ensures HasPrefix(name) ==> name == ".wh." + name[4..]
  {
    assert (".wh." + name)[..4] == ".wh." && WhiteoutName(name)[..4] == ".wh.";
  }

  /** Names of up to 250 characters have markers of their own. */
  lemma MarkerOwn(a: string, b: string)
    requires |a| <= NAME_MAX - |PREFIX| - 1
    ensures WhiteoutName(a) == WhiteoutName(b) <==> a == b
  {
    if WhiteoutName(a) == WhiteoutName(b) {
      assert |PREFIX + b| <= NAME_MAX;
      assert (PREFIX + a)[|PREFIX|..] == a && (PREFIX + b)[|PREFIX|..] == b;
    }
  }

  /** A name of 251 characters or more shares its marker with every name that agrees on the
      first 251. */
  lemma MarkerShared(a: string, b: string)
    requires |a| >= NAME_MAX - |PREFIX|
    ensures WhiteoutName(a) == WhiteoutName(b) <==> |b| >= NAME_MAX - |PREFIX| && a[..NAME_MAX - |PREFIX|] == b[..NAME_MAX - |PREFIX|]
  {
    var n := NAME_MAX - |PREFIX|;
    assert (PREFIX + a)[..NAME_MAX] == PREFIX + a[..n];
    assert (PREFIX + a[..n])[|PREFIX|..] == a[..n];
    if |b| >= n {
      assert (PREFIX + b)[..NAME_MAX] == PREFIX + b[..n];
      assert (PREFIX + b[..n])[|PREFIX|..] == b[..n];
      assert WhiteoutName(b) == PREFIX + b[..n] && WhiteoutName(a) == PREFIX + a[..n];
    } else {
      assert |WhiteoutName(b)| < NAME_MAX;
    }
  }

  // ----- one layer -----

  /** The first entry with the name. */
  function Find(es: seq<DirEntry>, name: string): Option<Kind> {
    if es == [] then None else if es[0].name == name then Some(es[0].kind) else Find(es[1..], name)
  }

  function Has(l: Layer, name: string): Option<Kind> { if l.present then Find(l.entries, name) else None }

  lemma {:induction false} FindAppend(es: seq<DirEntry>, e: DirEntry, name: string)
    ensures Find(es + [e], name) == if Find(es, name).Some? then Find(es, name) else if e.name == name then Some(e.kind) else None
    decreases |es|
  {
    if es == [] {
      assert (es + [e])[1..] == [];
    } else {
      assert (es + [e])[1..] == es[1..] + [e];
      FindAppend(es[1..], e, name);
    }
  }

  // ----- the merged view -----

  /** A writable layer above layer `i` hides the name. */
  predicate Hidden(ls: seq<Layer>, i: nat, name: string)
    requires i <= |ls|
  {
    exists u :: 0 <= u < i && ls[u].writable && Has(ls[u], WhiteoutName(name)).Some?
  }

  /** The topmost layer from `i` on that has the name. */
  function Topmost(ls: seq<Layer>, name: string, i: nat): (k: nat)
    requires i <= |ls|
    ensures i <= k <= |ls| && (k < |ls| ==> Has(ls[k], name).Some?) && forall j :: i <= j < k ==> Has(ls[j], name).None?
    decreases |ls| - i
  {
    if i == |ls| then i else if Has(ls[i], name).Some? then i else Topmost(ls, name, i + 1)
  }

  /** What looking up the name finds. */
  function Resolve(ls: seq<Layer>, name: string): Option<Kind> {
    var k := Topmost(ls, name, 0);
    if k == |ls| || Hidden(ls, k, name) then None else Has(ls[k], name)
  }

  ghost predicate NoDupNames(es: seq<DirEntry>) {
    forall i, j :: 0 <= i < j < |es| ==> es[i].name != es[j].name
  }

  /** Entry `d` of layer `i` is to be listed unless its name is listed already. */
  predicate Shows(ls: seq<Layer>, i: nat, d: DirEntry)
    requires i <= |ls|
  {
    !HasPrefix(d.name) && !Hidden(ls, i, d.name)
  }

  /** Below the topmost layer of a name that is hidden there, the name stays hidden. */
  lemma HiddenBelow(ls: seq<Layer>, i: nat, j: nat, name: string)
    requires i <= j <= |ls| && Hidden(ls, i, name)
    ensures Hidden(ls, j, name)
  {
  }

  /** What the layers above `i` show of a name. */
  function Above(ls: seq<Layer>, i: nat, name: string): Option<Kind>
    requires i <= |ls|
  {
    var t := Topmost(ls, name, 0);
    if t < i && !Hidden(ls, t, name) then Has(ls[t], name) else None
  }

  /** What they show together with the first `k` entries of layer `i`. */
  function Partial(ls: seq<Layer>, i: nat, k: nat, name: string): Option<Kind>
    requires i <= |ls| && (i < |ls| ==> k <= |ls[i].entries|)
  {
    if HasPrefix(name) then None
    else if Above(ls, i, name).Some? then Above(ls, i, name)
    else if i < |ls| && ls[i].present && !Hidden(ls, i, name) then Find(ls[i].entries[..k], name)
    else None
  }

  ghost predicate Listing(ls: seq<Layer>, i: nat, k: nat, merged: seq<DirEntry>)
    requires i <= |ls| && (i < |ls| ==> k <= |ls[i].entries|)
  {
    NoDupNames(merged) && forall n {:trigger Find(merged, n)} :: Find(merged, n) == Partial(ls, i, k, n)
  }

  lemma {:induction false} SeenIs(es: seq<DirEntry>, name: string)
    ensures Find(es, name).Some? <==> exists j :: 0 <= j < |es| && es[j].name == name
    decreases |es|
  {
    if es != [] && es[0].name != name {
      SeenIs(es[1..], name);
      if exists j :: 0 <= j < |es| && es[j].name == name {
        var j :| 0 <= j < |es| && es[j].name == name;
        assert es[1..][j - 1].name == name;
      }
    }
  }

  lemma FindTake(es: seq<DirEntry>, k: nat, name: string)
    requires k < |es|
    ensures Find(es[..k + 1], name) == if Find(es[..k], name).Some? then Find(es[..k], name) else if es[k].name == name then Some(es[k].kind) else None
  {
    assert es[..k + 1] == es[..k] + [es[k]];
    FindAppend(es[..k], es[k], name);
  }

  /** An entry that shows is added unless its name is there. */
  lemma AddShown(ls: seq<Layer>, i: nat, k: nat, merged: seq<DirEntry>)
    requires i < |ls| && k < |ls[i].entries| && ls[i].present && Listing(ls, i, k, merged) && Shows(ls, i, ls[i].entries[k])
    ensures var d := ls[i].entries[k];
            Listing(ls, i, k + 1, if Find(merged, d.name).Some? then merged else merged + [d])
  {
    hide Hidden;
    hide Above;
    hide HasPrefix;
    var d := ls[i].entries[k];
    var merged' := if Find(merged, d.name).Some? then merged else merged + [d];
    forall n
      ensures Find(merged', n) == Partial(ls, i, k + 1, n)
    {
      FindTake(ls[i].entries, k, n);
      FindAppend(merged, d, n);
      assert Find(merged, n) == Partial(ls, i, k, n);
    }
    SeenIs(merged, d.name);
  }

  lemma AddHidden(ls: seq<Layer>, i: nat, k: nat, merged: seq<DirEntry>)
    requires i < |ls| && k < |ls[i].entries| && ls[i].present && Listing(ls, i, k, merged) && !Shows(ls, i, ls[i].entries[k])
    ensures Listing(ls, i, k + 1, merged)
  {
    hide Hidden;
    hide Above;
    hide HasPrefix;
    forall n
      ensures Find(merged, n) == Partial(ls, i, k + 1, n)
    {
      FindTake(ls[i].entries, k, n);
      assert Find(merged, n) == Partial(ls, i, k, n);
    }
  }

  lemma AboveNext(ls: seq<Layer>, i: nat, name: string)
    requires i < |ls|
    ensures Above(ls, i + 1, name) ==
              if Above(ls, i, name).Some? then Above(ls, i, name)
              else if !Hidden(ls, i, name) then Has(ls[i], name) else None
  {
    var t := Topmost(ls, name, 0);
    if t < i && Hidden(ls, t, name) {
      HiddenBelow(ls, t, i, name);
    }
  }

  lemma NextLayer(ls: seq<Layer>, i: nat, merged: seq<DirEntry>)
    requires i < |ls| && Listing(ls, i, if ls[i].present then |ls[i].entries| else 0, merged)
    ensures Listing(ls, i + 1, 0, merged)
  {
    hide Hidden;
    hide Above;
    hide HasPrefix;
    forall n
      ensures Find(merged, n) == Partial(ls, i + 1, 0, n)
    {
      AboveNext(ls, i, n);
      assert Find(merged, n) == Partial(ls, i, if ls[i].present then |ls[i].entries| else 0, n);
      assert ls[i].entries[..|ls[i].entries|] == ls[i].entries;
    }
  }

  lemma Complete(ls: seq<Layer>, merged: seq<DirEntry>)
    requires Listing(ls, |ls|, 0, merged)
    ensures forall n :: Find(merged, n) == if HasPrefix(n) then None else Resolve(ls, n)
  {
    forall n
      ensures Find(merged, n) == if HasPrefix(n) then None else Resolve(ls, n)
    {
      assert Find(merged, n) == Partial(ls, |ls|, 0, n);
    }
  }

  lemma Distinct(ls: seq<Layer>, merged: seq<DirEntry>)
    requires Listing(ls, |ls|, 0, merged)
    ensures NoDupNames(merged)
  {
  }

  lemma NothingListed(ls: seq<Layer>)
    ensures Listing(ls, 0, 0, [])
  {
    forall n
      ensures Find([], n) == Partial(ls, 0, 0, n)
    {
    }
  }

  // ----- directories that merge -----

  /** Layer `k` is one of those that make up what the lookup finds: the topmost for a file,
      and for a directory every one down to a marker or a file of that name. */
  ghost predicate Contributes(ls: seq<Layer>, name: string, k: nat) {
    var t := Topmost(ls, name, 0);
    && t <= k < |ls| && Resolve(ls, name).Some? && Has(ls[k], name) == Has(ls[t], name)
    && (k > t ==>
          && Has(ls[t], name) == Some(Directory) && !Hidden(ls, k, name)
          && forall m :: t < m < k ==> Has(ls[m], name) != Some(File))
  }

  class OverlayDir {
    var layers: seq<Layer>

    constructor (ls: seq<Layer>)
      ensures layers == ls
    {
      layers := ls;
    }

    method IsHidden(i: nat, name: string) returns (r: bool)
      requires i <= |layers|
      ensures r <==> Hidden(layers, i, name)
    {
      for u := 0 to i
        invariant forall v :: 0 <= v < u ==> !(layers[v].writable && Has(layers[v], WhiteoutName(name)).Some?)
      {
        if layers[u].writable && Has(layers[u], WhiteoutName(name)).Some? {
          return true;
        }
      }
      r := false;
    }

    /** The merged listing: no name twice, and exactly the names, other than markers, that a
        lookup finds, with the same kind. */
    method BuildMergedList() returns (merged: seq<DirEntry>)
      ensures NoDupNames(merged)
      ensures forall n :: Find(merged, n) == if HasPrefix(n) then None else Resolve(layers, n)
    {
      hide Listing;
      merged := [];
      NothingListed(layers);
      for i := 0 to |layers|
        invariant Listing(layers, i, 0, merged)
      {
        if layers[i].present {
          for k := 0 to |layers[i].entries|
            invariant Listing(layers, i, k, merged)
          {
            var d := layers[i].entries[k];
            var hidden := IsHidden(i, d.name);
            if HasPrefix(d.name) || hidden {
              AddHidden(layers, i, k, merged);
              continue;
            }
            var seen := Seen(merged, d.name);
            SeenIs(merged, d.name);
            AddShown(layers, i, k, merged);
            if !seen {
              merged := merged + [d];
            }
          }
        }
        NextLayer(layers, i, merged);
      }
      Complete(layers, merged);
      Distinct(layers, merged);
    }

    method Seen(merged: seq<DirEntry>, name: string) returns (r: bool)
      ensures r <==> exists j :: 0 <= j < |merged| && merged[j].name == name
    {
      for m := 0 to |merged|
        invariant forall j :: 0 <= j < m ==> merged[j].name != name
      {
        if merged[m].name == name {
          return true;
        }
      }
      r := false;
    }

    /** Looks the name up layer by layer; `roots` are the layers that make up the result. */
    method Lookup(name: string) returns (r: Option<Kind>, roots: set<nat>)
      ensures r == Resolve(layers, name) && IsRoots(layers, name, |layers|, roots)
    {
      hide Hidden;
      hide Contributes;
      hide IsRoots;
      hide Scanned;
      r, roots := None, {};
      ScanStart(layers, name);
      for i := 0 to |layers|
        invariant Scanned(layers, name, i, r, roots)
      {
        if !layers[i].present {
          ScanAbsent(layers, name, i, r, roots);
          continue;
        }
        var hidden := IsHidden(i, name);
        if hidden {
          StopHidden(layers, name, i, r, roots);
          return;
        }
        var here := Has(layers[i], name);
        ScanOn(layers, name, i, r, roots);
        if here.Some? {
          if r.None? {
            r := here;
          }
          if r == Some(File) {
            roots := roots + {i};
            return;
          } else if here == Some(Directory) {
            roots := roots + {i};
          } else {
            return;
          }
        }
      }
      ScanEnd(layers, name, r, roots);
    }

    /** Removes the topmost copy: from its layer if that is writable, or else by putting a
        marker into the topmost writable layer above. `created` says whether that layer could
        take the marker; a layer refuses to remove a directory. */
    method Unlink(name: string, created: bool) returns (r: Result)
      modifies this
      ensures var t := Topmost(old(layers), name, 0);
              && (r == Done <==> Unlinkable(old(layers), name, t, created))
              && (r != Done ==> layers == old(layers))
              && (r == Done ==> layers == Unlinked(old(layers), name, t))
    {
      for i := 0 to |layers|
        invariant layers == old(layers) && forall m :: 0 <= m < i ==> Has(layers[m], name).None?
      {
        if Has(layers[i], name).None? {
          continue;
        }
        TopmostIs(layers, name, i);
        if layers[i].writable {
          if Has(layers[i], name) == Some(Directory) {
            return IsDirectory;
          }
          KindCases(Has(layers[i], name));
          layers := layers[i := layers[i].(entries := RemoveFirst(layers[i].entries, name))];
          return Done;
        }
        for j := 0 to i
          invariant layers == old(layers) && forall m :: 0 <= m < j ==> !(layers[m].writable && layers[m].present)
        {
          if !layers[j].writable || !layers[j].present {
            continue;
          }
          WritableIs(layers, i, j);
          if Has(layers[j], WhiteoutName(name)).Some? {
            return Exists;
          }
          if !created {
            return NoSpace;
          }
          layers := layers[j := layers[j].(entries := layers[j].entries + [DirEntry(WhiteoutName(name), File)])];
          return Done;
        }
        WritableIs(layers, i, i);
        return IoError;
      }
      TopmostIs(layers, name, |layers|);
      r := NotFound;
    }
  }

  // ----- lookup, step by step -----

  ghost predicate IsRoots(ls: seq<Layer>, name: string, i: nat, roots: set<nat>) {
    forall k: nat {:trigger k in roots} :: k in roots <==> k < i && Contributes(ls, name, k)
  }

  /** What the loop knows when it comes to layer `i`. */
  ghost predicate Scanned(ls: seq<Layer>, name: string, i: nat, r: Option<Kind>, roots: set<nat>)
    requires i <= |ls|
  {
    var t := Topmost(ls, name, 0);
    && (forall m :: 0 <= m < i && ls[m].present ==> !Hidden(ls, m, name))
    && (if t < i then r == Has(ls[t], name) == Some(Directory) else r == None)
    && (forall m :: t < m < i ==> Has(ls[m], name) != Some(File))
    && IsRoots(ls, name, i, roots)
  }

  lemma ScanStart(ls: seq<Layer>, name: string)
    ensures Scanned(ls, name, 0, None, {})
  {
  }

  lemma ScanAbsent(ls: seq<Layer>, name: string, i: nat, r: Option<Kind>, roots: set<nat>)
    requires i < |ls| && !ls[i].present && Scanned(ls, name, i, r, roots)
    ensures Scanned(ls, name, i + 1, r, roots)
  {
    assert !Contributes(ls, name, i);
  }

  lemma StopHidden(ls: seq<Layer>, name: string, i: nat, r: Option<Kind>, roots: set<nat>)
    requires i < |ls| && Hidden(ls, i, name) && Scanned(ls, name, i, r, roots)
    ensures r == Resolve(ls, name) && IsRoots(ls, name, |ls|, roots)
  {
    var t := Topmost(ls, name, 0);
    if t < |ls| && i <= t {
      HiddenBelow(ls, i, t, name);
    }
    forall k | i <= k < |ls|
      ensures !Contributes(ls, name, k)
    {
      HiddenBelow(ls, i, k, name);
    }
  }

  /** The layer is neither absent nor hidden. */
  lemma ScanOn(ls: seq<Layer>, name: string, i: nat, r: Option<Kind>, roots: set<nat>)
    requires i < |ls| && ls[i].present && !Hidden(ls, i, name) && Scanned(ls, name, i, r, roots)
    ensures var here := Has(ls[i], name);
            if here == None then Scanned(ls, name, i + 1, r, roots)
            else
              var r' := if r == None then here else r;
              if r' == Some(File) then r' == Resolve(ls, name) && IsRoots(ls, name, |ls|, roots + {i})
              else if here == Some(Directory) then Scanned(ls, name, i + 1, r', roots + {i})
              else r' == Resolve(ls, name) && IsRoots(ls, name, |ls|, roots)
  {
    var t := Topmost(ls, name, 0);
    var here := Has(ls[i], name);
    KindCases(here);
    if here == None {
      assert !Contributes(ls, name, i);
    } else if r == None {
      assert t == i;
      assert Contributes(ls, name, i);
    } else if here == Some(Directory) {
      assert Contributes(ls, name, i);
    } else {
      forall k: nat | i <= k < |ls|
        ensures !Contributes(ls, name, k)
      {
        assert k > i ==> t < i < k;
      }
    }
  }

  lemma ScanEnd(ls: seq<Layer>, name: string, r: Option<Kind>, roots: set<nat>)
    requires Scanned(ls, name, |ls|, r, roots)
    ensures r == Resolve(ls, name) && IsRoots(ls, name, |ls|, roots)
  {
    var t := Topmost(ls, name, 0);
    assert t < |ls| ==> ls[t].present;
  }

  // ----- unlink -----

  datatype Result = Done | NotFound | IsDirectory | Exists | NoSpace | IoError

  /** The topmost writable layer above `i`, or `i`. */
  function TopWritable(ls: seq<Layer>, i: nat, j: nat): (k: nat)
    requires j <= i <= |ls|
    ensures j <= k <= i && (k < i ==> ls[k].writable && ls[k].present)
    ensures forall m :: j <= m < k ==> !(ls[m].writable && ls[m].present)
    decreases i - j
  {
    if j == i then i else if ls[j].writable && ls[j].present then j else TopWritable(ls, i, j + 1)
  }

  lemma WritableIs(ls: seq<Layer>, i: nat, j: nat)
    requires j <= i <= |ls| && (forall m :: 0 <= m < j ==> !(ls[m].writable && ls[m].present))
    requires j < i ==> ls[j].writable && ls[j].present
    ensures TopWritable(ls, i, 0) == j
  {
  }

  lemma TopmostIs(ls: seq<Layer>, name: string, i: nat)
    requires i <= |ls| && (forall m :: 0 <= m < i ==> Has(ls[m], name).None?) && (i < |ls| ==> Has(ls[i], name).Some?)
    ensures Topmost(ls, name, 0) == i
  {
  }

  function RemoveFirst(es: seq<DirEntry>, name: string): seq<DirEntry> {
    if es == [] then [] else if es[0].name == name then es[1..] else [es[0]] + RemoveFirst(es[1..], name)
  }

  ghost predicate Unlinkable(ls: seq<Layer>, name: string, t: nat, created: bool)
    requires t <= |ls|
  {
    t < |ls| &&
    if ls[t].writable then Has(ls[t], name) == Some(File)
    else
      var j := TopWritable(ls, t, 0);
      j < t && Has(ls[j], WhiteoutName(name)).None? && created
  }

  function Unlinked(ls: seq<Layer>, name: string, t: nat): seq<Layer>
    requires t < |ls|
  {
    if ls[t].writable then ls[t := ls[t].(entries := RemoveFirst(ls[t].entries, name))]
    else
      var j := TopWritable(ls, t, 0);
      if j < t then ls[j := ls[j].(entries := ls[j].entries + [DirEntry(WhiteoutName(name), File)])] else ls
  }

  /** What adding the marker does to looking a name up in each layer. */
  lemma MarkedHas(ls: seq<Layer>, j: nat, w: string, m: string)
    requires j < |ls| && ls[j].present
    ensures var ls' := ls[j := ls[j].(entries := ls[j].entries + [DirEntry(w, File)])];
            forall i :: 0 <= i < |ls| ==>
              Has(ls'[i], m) == if i == j && w == m && Has(ls[j], m) == None then Some(File) else Has(ls[i], m)
  {
    FindAppend(ls[j].entries, DirEntry(w, File), m);
  }

  ghost predicate Marks(ls: seq<Layer>, name: string, created: bool) {
    var t := Topmost(ls, name, 0);
    Unlinkable(ls, name, t, created) && !ls[t].writable
  }

  /** Unlinking a name whose topmost copy is read-only makes looking it up fail, exactly if
      the name is not its own marker. */
  lemma UnlinkHidesIff(ls: seq<Layer>, name: string, created: bool)
    requires Marks(ls, name, created)
    ensures Resolve(Unlinked(ls, name, Topmost(ls, name, 0)), name) == None <==> WhiteoutName(name) != name
  {
    var t := Topmost(ls, name, 0);
    var j := TopWritable(ls, t, 0);
    var w := WhiteoutName(name);
    var ls' := Unlinked(ls, name, t);
    MarkedHas(ls, j, w, name);
    MarkedHas(ls, j, w, w);
    if w != name {
      TopmostIs(ls', name, t);
      assert ls'[j].writable && Has(ls'[j], w).Some?;
    } else {
      TopmostIs(ls', name, j);
      assert !Hidden(ls', j, name);
    }
  }

  /** A name shorter than the longest possible is never its own marker. */
  lemma NotOwnMarker(name: string)
    requires |name| < NAME_MAX
    ensures WhiteoutName(name) != name
  {
  }

  /** No other name changes, except the marker's own name and names that share the marker. */
  lemma UnlinkKeepsOthers(ls: seq<Layer>, name: string, created: bool, m: string)
    requires Marks(ls, name, created) && m != WhiteoutName(name) && WhiteoutName(m) != WhiteoutName(name)
    ensures Resolve(Unlinked(ls, name, Topmost(ls, name, 0)), m) == Resolve(ls, m)
  {
    var t := Topmost(ls, name, 0);
    var j := TopWritable(ls, t, 0);
    var ls' := Unlinked(ls, name, t);
    MarkedHas(ls, j, WhiteoutName(name), m);
    MarkedHas(ls, j, WhiteoutName(name), WhiteoutName(m));
    var k := Topmost(ls, m, 0);
    TopmostIs(ls', m, k);
    SameHidden(ls, ls', k, m);
  }

  lemma SameHidden(ls: seq<Layer>, ls': seq<Layer>, k: nat, m: string)
    requires k <= |ls| == |ls'|
    requires forall i :: 0 <= i < |ls| ==> ls'[i].writable == ls[i].writable && Has(ls'[i], WhiteoutName(m)) == Has(ls[i], WhiteoutName(m))
    ensures Hidden(ls', k, m) == Hidden(ls, k, m)
  {
  }

  /** A name that shares the marker disappears too if its topmost copy lies below the marker. */
  lemma SharedMarkerHides(ls: seq<Layer>, name: string, created: bool, m: string)
    requires Marks(ls, name, created) && WhiteoutName(m) == WhiteoutName(name) != m
    requires TopWritable(ls, Topmost(ls, name, 0), 0) < Topmost(ls, m, 0)
    ensures Resolve(Unlinked(ls, name, Topmost(ls, name, 0)), m) == None
  {
    var t := Topmost(ls, name, 0);
    var j := TopWritable(ls, t, 0);
    var w := WhiteoutName(name);
    var ls' := Unlinked(ls, name, t);
    MarkedHas(ls, j, w, m);
    MarkedHas(ls, j, w, w);
    TopmostIs(ls', m, Topmost(ls, m, 0));
    assert ls'[j].writable && Has(ls'[j], WhiteoutName(m)).Some?;
  }

  /** A marker hides nothing in its own layer or above it. */
  lemma SharedMarkerAbove(ls: seq<Layer>, name: string, created: bool, m: string)
    requires Marks(ls, name, created) && WhiteoutName(m) == WhiteoutName(name) != m
    requires Topmost(ls, m, 0) <= TopWritable(ls, Topmost(ls, name, 0), 0)
    ensures Resolve(Unlinked(ls, name, Topmost(ls, name, 0)), m) == Resolve(ls, m)
  {
    var t := Topmost(ls, name, 0);
    var j := TopWritable(ls, t, 0);
    var w := WhiteoutName(name);
    var ls' := Unlinked(ls, name, t);
    MarkedHas(ls, j, w, m);
    MarkedHas(ls, j, w, w);
    var k := Topmost(ls, m, 0);
    TopmostIs(ls', m, k);
    assert forall u :: 0 <= u < k ==> ls'[u] == ls[u];
  }

  /** Apart from the marker itself, unlinking a name whose topmost copy is read-only changes what
      another name finds exactly if that shares the marker, was found and lies below it. */
  lemma UnlinkChangesIff(ls: seq<Layer>, name: string, created: bool, m: string)
    requires Marks(ls, name, created) && m != WhiteoutName(name)
    ensures Resolve(Unlinked(ls, name, Topmost(ls, name, 0)), m) != Resolve(ls, m) <==>
              && WhiteoutName(m) == WhiteoutName(name) && Resolve(ls, m).Some?
              && TopWritable(ls, Topmost(ls, name, 0), 0) < Topmost(ls, m, 0)
  {
    if WhiteoutName(m) != WhiteoutName(name) {
      UnlinkKeepsOthers(ls, name, created, m);
    } else if TopWritable(ls, Topmost(ls, name, 0), 0) < Topmost(ls, m, 0) {
      SharedMarkerHides(ls, name, created, m);
    } else {
      SharedMarkerAbove(ls, name, created, m);
    }
  }

  function Long(last: char): string { seq(251, _ => 'x') + [last] }

  /** Two files with names of 252 characters: unlinking one hides the other. */
  lemma SharedMarkerExample()
    ensures var a, b := Long('a'), Long('b');
            var ls := [Layer(true, true, []), Layer(true, false, [DirEntry(a, File), DirEntry(b, File)])];
            && a != b && Marks(ls, a, true) && Resolve(ls, b) == Some(File)
            && Resolve(Unlinked(ls, a, Topmost(ls, a, 0)), b) == None
  {
    var a, b := Long('a'), Long('b');
    assert a[251] != b[251];
    assert a[..251] == b[..251];
    MarkerShared(a, b);
    var es := [DirEntry(a, File), DirEntry(b, File)];
    var ls := [Layer(true, true, []), Layer(true, false, es)];
    assert Find(es, a) == Some(File);
    assert es[1..] == [DirEntry(b, File)] && Find(es[1..], b) == Some(File);
    TopmostIs(ls, a, 1);
    TopmostIs(ls, b, 1);
    WritableIs(ls, 1, 0);
    assert WhiteoutName(a)[0] == '.' && b[0] == 'x';
    SharedMarkerHides(ls, a, true, b);
  }

  // ----- unlinking from a writable layer -----

  /** No second entry has the name. */
  ghost predicate Single(ls: seq<Layer>, t: nat, name: string)
    requires t < |ls|
  {
    Find(RemoveFirst(ls[t].entries, name), name) == None
  }

  /** The name is gone exactly if at most one entry had it; so it is if no name occurs twice. */
  lemma {:induction false} RemovedIff(es: seq<DirEntry>, name: string)
    ensures Find(RemoveFirst(es, name), name) == None <==>
              forall i, j :: 0 <= i < j < |es| && es[i].name == name ==> es[j].name != name
    ensures NoDupNames(es) ==> Find(RemoveFirst(es, name), name) == None && NoDupNames(RemoveFirst(es, name))
    decreases |es|
  {
    if es != [] {
      var rest := es[1..];
      if es[0].name == name {
        FindNone(rest, name);
        assert forall j :: 0 < j < |es| ==> es[j] == rest[j - 1];
      } else {
        RemovedIff(rest, name);
        TailTwice(es, name);
        assert ([es[0]] + RemoveFirst(rest, name))[1..] == RemoveFirst(rest, name);
        RemovedFrom(rest, name);
      }
    }
  }

  lemma TailTwice(es: seq<DirEntry>, name: string)
    requires es != [] && es[0].name != name
    ensures (forall i, j :: 0 <= i < j < |es| && es[i].name == name ==> es[j].name != name) <==>
              forall i, j :: 0 <= i < j < |es[1..]| && es[1..][i].name == name ==> es[1..][j].name != name
  {
    var rest := es[1..];
    assert forall i :: 0 < i < |es| ==> es[i] == rest[i - 1];
    assert forall i :: 0 <= i < |rest| ==> rest[i] == es[i + 1];
  }

  lemma {:induction false} FindNone(es: seq<DirEntry>, name: string)
    ensures Find(es, name) == None <==> forall i :: 0 <= i < |es| ==> es[i].name != name
    decreases |es|
  {
    if es != [] {
      FindNone(es[1..], name);
      assert forall i :: 0 < i < |es| ==> es[i] == es[1..][i - 1];
    }
  }

  lemma {:induction false} RemovedFrom(es: seq<DirEntry>, name: string)
    ensures forall i :: 0 <= i < |RemoveFirst(es, name)| ==> RemoveFirst(es, name)[i] in es
    decreases |es|
  {
    if es != [] && es[0].name != name {
      RemovedFrom(es[1..], name);
    }
  }

  /** Unlinking from a writable layer uncovers what the layers below have: the name is still
      found, although unlinking succeeded, exactly if they have it and no marker hides it. */
  lemma UnlinkUncovers(ls: seq<Layer>, name: string)
    requires var t := Topmost(ls, name, 0); t < |ls| && ls[t].writable && Single(ls, t, name) && WhiteoutName(name) != name
    ensures var t := Topmost(ls, name, 0); var k := Topmost(ls, name, t + 1);
            Resolve(Unlinked(ls, name, t), name) == if k == |ls| || Hidden(ls, k, name) then None else Has(ls[k], name)
  {
    var t := Topmost(ls, name, 0);
    var ls' := Unlinked(ls, name, t);
    var k := Topmost(ls, name, t + 1);
    RemovedOther(ls[t].entries, name, WhiteoutName(name));
    TopmostIs(ls', name, k);
    SameHidden(ls, ls', k, name);
  }

  /** Unlinking a marker brings back the name it hid, unless another marker hides it. */
  lemma UnlinkReveals(ls: seq<Layer>, name: string, m: string)
    requires var t := Topmost(ls, name, 0); t < |ls| && ls[t].writable && Single(ls, t, name) && WhiteoutName(m) == name != m
    ensures var t, k := Topmost(ls, name, 0), Topmost(ls, m, 0);
            Resolve(Unlinked(ls, name, t), m) ==
            if k == |ls| || exists u :: 0 <= u < k && u != t && ls[u].writable && Has(ls[u], name).Some? then None else Has(ls[k], m)
  {
    var t, k := Topmost(ls, name, 0), Topmost(ls, m, 0);
    var ls' := Unlinked(ls, name, t);
    RemovedOther(ls[t].entries, name, m);
    TopmostIs(ls', m, k);
    assert Hidden(ls', k, m) <==> exists u :: 0 <= u < k && ls'[u].writable && Has(ls'[u], name).Some?;
    assert Has(ls'[t], name) == None;
    forall u | 0 <= u < k
      ensures ls'[u].writable && Has(ls'[u], name).Some? <==> u != t && ls[u].writable && Has(ls[u], name).Some?
    {
    }
  }

  /** It changes no other name. */
  lemma UnlinkKeepsOthersInPlace(ls: seq<Layer>, name: string, m: string)
    requires var t := Topmost(ls, name, 0); t < |ls| && ls[t].writable && m != name && WhiteoutName(m) != name
    ensures Resolve(Unlinked(ls, name, Topmost(ls, name, 0)), m) == Resolve(ls, m)
  {
    var t := Topmost(ls, name, 0);
    var ls' := Unlinked(ls, name, t);
    RemovedOther(ls[t].entries, name, m);
    RemovedOther(ls[t].entries, name, WhiteoutName(m));
    var k := Topmost(ls, m, 0);
    TopmostIs(ls', m, k);
    SameHidden(ls, ls', k, m);
  }

  lemma {:induction false} RemovedOther(es: seq<DirEntry>, name: string, m: string)
    requires m != name
    ensures Find(RemoveFirst(es, name), m) == Find(es, m)
    decreases |es|
  {
    if es != [] && es[0].name != name {
      RemovedOther(es[1..], name, m);
      assert ([es[0]] + RemoveFirst(es[1..], name))[1..] == RemoveFirst(es[1..], name);
    }
  }
}
