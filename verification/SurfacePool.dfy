/** The DXVA2 surface pool of ffmpeg: surfaces are handed out to the decoder and come back when
    their frame is unreferenced, perhaps long after the pool they came from was replaced. Surfaces
    and decoders are reference-counted objects known by address, and an address can be used again
    once its object is gone. */
module SurfacePool {
  import opened Wrappers

  type Address = nat

  datatype Info = Info(used: bool, age: nat)

  /** A DXVA2SurfaceWrapper. `generation` and `index` are history: which pool and which slot. */
  datatype Frame = Frame(surface: Address, decoder: Address, generation: nat, index: nat)

  /** The context, the objects alive with their reference counts, and the frames not yet released.
      `handed` lists the slots handed out since the pool was created. */
  datatype Pool = Pool(surfaces: seq<Address>, infos: seq<Info>, surface_age: nat, decoder: Option<Address>,
                       surfaceRefs: map<Address, nat>, decoderRefs: map<Address, nat>,
                       frames: map<nat, Frame>, generation: nat, handed: seq<nat>)

  const EMPTY := Pool([], [], 0, None, map[], map[], map[], 0, [])

  function AddRef(refs: map<Address, nat>, a: Address): map<Address, nat> {
    refs[a := if a in refs then refs[a] + 1 else 1]
  }

  /** Releasing the last reference frees the object. */
  function Unref(refs: map<Address, nat>, a: Address): map<Address, nat>
    requires a in refs
  {
    if refs[a] <= 1 then refs - {a} else refs[a := refs[a] - 1]
  }

  /** The first unused slot with the least age among the first `n`. */
  function Oldest(infos: seq<Info>, n: nat): (r: Option<nat>)
    requires n <= |infos|
    ensures r.Some? ==> r.value < n && !infos[r.value].used
    ensures r.Some? ==> forall i :: 0 <= i < n && !infos[i].used ==>
              infos[r.value].age < infos[i].age || (infos[r.value].age == infos[i].age && r.value <= i)
    ensures r.None? ==> forall i :: 0 <= i < n ==> infos[i].used
  {
    if n == 0 then None
    else
      var old_unused := Oldest(infos, n - 1);
      if !infos[n - 1].used && (old_unused.None? || infos[n - 1].age < infos[old_unused.value].age)
      then Some(n - 1) else old_unused
  }

  /** dxva2_get_buffer for a new frame `h`; unchanged when no surface is free. */
  function Get(p: Pool, h: nat): Pool
    requires |p.surfaces| == |p.infos| && (p.surfaces != [] ==> p.decoder.Some?)
  {
    match Oldest(p.infos, |p.infos|)
    case None => p
    case Some(i) =>
      p.(infos := p.infos[i := Info(true, p.surface_age)], surface_age := p.surface_age + 1,
         surfaceRefs := AddRef(p.surfaceRefs, p.surfaces[i]),
         decoderRefs := AddRef(p.decoderRefs, p.decoder.value),
         frames := p.frames[h := Frame(p.surfaces[i], p.decoder.value, p.generation, i)],
         handed := p.handed + [i])
  }

  /** The slots after the one that holds `surface`, if any, is marked free. */
  function Freed(surfaces: seq<Address>, infos: seq<Info>, surface: Address): seq<Info>
    requires |surfaces| == |infos|
  {
    if surfaces == [] then []
    else if surfaces[0] == surface then [infos[0].(used := false)] + infos[1..]
    else [infos[0]] + Freed(surfaces[1..], infos[1..], surface)
  }

  /** dxva2_release_buffer for frame `h`. */
  function Release(p: Pool, h: nat): Pool
    requires |p.surfaces| == |p.infos| && h in p.frames
    requires p.frames[h].surface in p.surfaceRefs && p.frames[h].decoder in p.decoderRefs
  {
    var w := p.frames[h];
    p.(infos := Freed(p.surfaces, p.infos, w.surface),
       surfaceRefs := Unref(p.surfaceRefs, w.surface), decoderRefs := Unref(p.decoderRefs, w.decoder),
       frames := p.frames - {h})
  }

  ghost predicate Distinct(surfaces: seq<Address>) {
    forall i, j :: 0 <= i < j < |surfaces| ==> surfaces[i] != surfaces[j]
  }

  function UnrefAll(refs: map<Address, nat>, surfaces: seq<Address>): map<Address, nat>
    requires forall i :: 0 <= i < |surfaces| ==> surfaces[i] in refs
    requires Distinct(surfaces)
    decreases |surfaces|
  {
    if surfaces == [] then refs else UnrefAll(Unref(refs, surfaces[0]), surfaces[1..])
  }

  /** The pool holds references it can give back. */
  ghost predicate Owned(p: Pool) {
    && Distinct(p.surfaces) && |p.surfaces| == |p.infos|
    && (forall i :: 0 <= i < |p.surfaces| ==> p.surfaces[i] in p.surfaceRefs)
    && (p.decoder.Some? ==> p.decoder.value in p.decoderRefs)
  }

  /** dxva2_destroy_decoder */
  function Destroy(p: Pool): Pool
    requires Owned(p)
  {
    p.(surfaces := [], infos := [], surface_age := 0, decoder := None, handed := [],
       surfaceRefs := UnrefAll(p.surfaceRefs, p.surfaces),
       decoderRefs := if p.decoder.Some? then Unref(p.decoderRefs, p.decoder.value) else p.decoderRefs)
  }

  /** CreateSurface and CreateVideoDecoder give objects at addresses that are not in use. */
  ghost predicate Fresh(p: Pool, surfaces: seq<Address>, decoder: Address) {
    && surfaces != [] && decoder !in p.decoderRefs
    && (forall i :: 0 <= i < |surfaces| ==> surfaces[i] !in p.surfaceRefs)
    && Distinct(surfaces)
  }

  function Emptied(p: Pool): Pool
    requires Owned(p)
  {
    if p.decoder.Some? then Destroy(p) else p
  }

  function AddRefAll(refs: map<Address, nat>, surfaces: seq<Address>): map<Address, nat> {
    refs + map a | a in surfaces :: 1
  }

  /** dxva2_init: the old pool goes, the new surfaces come in unused with age 0. */
  function Recreate(p: Pool, surfaces: seq<Address>, decoder: Address): Pool
    requires Owned(p)
  {
    var d := Emptied(p);
    d.(surfaces := surfaces, infos := seq(|surfaces|, _ => Info(false, 0)), decoder := Some(decoder),
       surfaceRefs := AddRefAll(d.surfaceRefs, surfaces), decoderRefs := d.decoderRefs[decoder := 1],
       generation := p.generation + 1)
  }

  // ---------------------------------------------------------------- the invariant

  ghost predicate Held(frames: map<nat, Frame>, a: Address) {
    exists h :: h in frames && frames[h].surface == a
  }

  function Holders(frames: map<nat, Frame>, decoder: Address): set<nat> {
    set h | h in frames && frames[h].decoder == decoder
  }

  function One(b: bool): nat {
    if b then 1 else 0
  }

  /** Reference counts are exact: the pool and every outstanding frame hold one reference each. */
  ghost predicate SurfaceRefsExact(refs: map<Address, nat>, surfaces: seq<Address>, frames: map<nat, Frame>) {
    && (forall a :: a in refs <==> a in surfaces || Held(frames, a))
    && (forall a :: a in refs ==> refs[a] == One(a in surfaces) + One(Held(frames, a)))
  }

  ghost predicate DecoderRefsExact(refs: map<Address, nat>, decoder: Option<Address>, frames: map<nat, Frame>) {
    && (forall d :: d in refs <==> decoder == Some(d) || Holders(frames, d) != {})
    && (forall d :: d in refs ==> refs[d] == One(decoder == Some(d)) + |Holders(frames, d)|)
  }

  /** No two outstanding frames share a surface. */
  ghost predicate Injective(frames: map<nat, Frame>) {
    forall h, k :: h in frames && k in frames && frames[h].surface == frames[k].surface ==> h == k
  }

  /** A slot is used exactly while a frame holds its surface. */
  ghost predicate UsedExact(surfaces: seq<Address>, infos: seq<Info>, frames: map<nat, Frame>) {
    && |surfaces| == |infos|
    && forall i :: 0 <= i < |surfaces| ==> (infos[i].used <==> Held(frames, surfaces[i]))
  }

  /** A frame of this pool holds the surface of its slot, a frame of an earlier pool none of them. */
  ghost predicate GenerationsExact(p: Pool) {
    forall h :: h in p.frames ==>
      && p.frames[h].generation <= p.generation
      && if p.frames[h].generation == p.generation && p.decoder.Some?
         then p.frames[h].index < |p.surfaces| && p.surfaces[p.frames[h].index] == p.frames[h].surface
         else p.frames[h].surface !in p.surfaces
  }

  /** The last time slot `i` was handed out, counted from 0; -1 for never. */
  function LastHandout(handed: seq<nat>, i: nat): (r: int)
    ensures -1 <= r < |handed|
    ensures r >= 0 ==> handed[r] == i
  {
    if handed == [] then -1
    else if handed[|handed| - 1] == i then |handed| - 1
    else LastHandout(handed[..|handed| - 1], i)
  }

  /** The age of a slot is its last handout; 0 for never, which slot 0 may also have. */
  ghost predicate AgesExact(infos: seq<Info>, surface_age: nat, handed: seq<nat>) {
    && surface_age == |handed|
    && (handed != [] ==> infos != [] && handed[0] == 0)
    && (forall i :: 0 <= i < |infos| ==>
          LastHandout(handed, i) == if infos[i].age == 0 && !(handed != [] && i == 0) then -1 else infos[i].age)
    && (handed == [] ==> forall i :: 0 <= i < |infos| ==> !infos[i].used)
  }

  ghost predicate Inv(p: Pool) {
    && (p.surfaces != [] <==> p.decoder.Some?)
    && Distinct(p.surfaces)
    && Injective(p.frames)
    && UsedExact(p.surfaces, p.infos, p.frames)
    && GenerationsExact(p)
    && SurfaceRefsExact(p.surfaceRefs, p.surfaces, p.frames)
    && DecoderRefsExact(p.decoderRefs, p.decoder, p.frames)
    && AgesExact(p.infos, p.surface_age, p.handed)
  }

  // ---------------------------------------------------------------- steps keep it

  lemma InvOwned(p: Pool)
    requires Inv(p)
    ensures Owned(p)
    ensures forall h :: h in p.frames ==> p.frames[h].surface in p.surfaceRefs && p.frames[h].decoder in p.decoderRefs
  {
    forall h | h in p.frames
      ensures p.frames[h].surface in p.surfaceRefs && p.frames[h].decoder in p.decoderRefs
    {
      assert Held(p.frames, p.frames[h].surface);
      assert h in Holders(p.frames, p.frames[h].decoder);
    }
  }

  lemma HeldAdd(frames: map<nat, Frame>, h: nat, f: Frame, a: Address)
    requires h !in frames
    ensures Held(frames[h := f], a) <==> Held(frames, a) || a == f.surface
  {
    if a == f.surface {
      assert frames[h := f][h].surface == a;
    } else if k :| k in frames && frames[k].surface == a {
      assert frames[h := f][k].surface == a;
    }
  }

  lemma HeldRemove(frames: map<nat, Frame>, h: nat, a: Address)
    requires h in frames && Injective(frames)
    ensures Held(frames - {h}, a) <==> Held(frames, a) && a != frames[h].surface
  {
    if k :| k in frames && frames[k].surface == a && a != frames[h].surface {
      assert k in frames - {h};
    }
  }

  lemma SurfaceRefsAdd(refs: map<Address, nat>, surfaces: seq<Address>, frames: map<nat, Frame>, h: nat, f: Frame)
    requires SurfaceRefsExact(refs, surfaces, frames) && h !in frames
    requires f.surface in surfaces && !Held(frames, f.surface)
    ensures SurfaceRefsExact(AddRef(refs, f.surface), surfaces, frames[h := f])
  {
    forall a ensures Held(frames[h := f], a) <==> Held(frames, a) || a == f.surface {
      HeldAdd(frames, h, f, a);
    }
  }

  lemma SurfaceRefsRemove(refs: map<Address, nat>, surfaces: seq<Address>, frames: map<nat, Frame>, h: nat)
    requires SurfaceRefsExact(refs, surfaces, frames) && h in frames && Injective(frames)
    requires frames[h].surface in refs
    ensures SurfaceRefsExact(Unref(refs, frames[h].surface), surfaces, frames - {h})
  {
    assert Held(frames, frames[h].surface);
    forall a ensures Held(frames - {h}, a) <==> Held(frames, a) && a != frames[h].surface {
      HeldRemove(frames, h, a);
    }
  }

  lemma HoldersAdd(frames: map<nat, Frame>, h: nat, f: Frame, d: Address)
    requires h !in frames
    ensures Holders(frames[h := f], d) == Holders(frames, d) + if d == f.decoder then {h} else {}
    ensures |Holders(frames[h := f], d)| == |Holders(frames, d)| + One(d == f.decoder)
  {
    assert h !in Holders(frames, d);
    assert Holders(frames[h := f], d) == Holders(frames, d) + if d == f.decoder then {h} else {};
  }

  lemma HoldersRemove(frames: map<nat, Frame>, h: nat, d: Address)
    requires h in frames
    ensures Holders(frames - {h}, d) == Holders(frames, d) - if d == frames[h].decoder then {h} else {}
    ensures |Holders(frames - {h}, d)| == |Holders(frames, d)| - One(d == frames[h].decoder)
  {
    assert d == frames[h].decoder ==> h in Holders(frames, d);
    assert Holders(frames - {h}, d) == Holders(frames, d) - if d == frames[h].decoder then {h} else {};
  }

  lemma DecoderRefsAdd(refs: map<Address, nat>, decoder: Option<Address>, frames: map<nat, Frame>, h: nat, f: Frame)
    requires DecoderRefsExact(refs, decoder, frames) && h !in frames && decoder == Some(f.decoder)
    ensures DecoderRefsExact(AddRef(refs, f.decoder), decoder, frames[h := f])
  {
    var refs', frames' := AddRef(refs, f.decoder), frames[h := f];
    forall d
      ensures d in refs' <==> decoder == Some(d) || Holders(frames', d) != {}
      ensures d in refs' ==> refs'[d] == One(decoder == Some(d)) + |Holders(frames', d)|
    {
      HoldersAdd(frames, h, f, d);
    }
  }

  lemma DecoderRefsRemove(refs: map<Address, nat>, decoder: Option<Address>, frames: map<nat, Frame>, h: nat)
    requires DecoderRefsExact(refs, decoder, frames) && h in frames
    requires frames[h].decoder in refs
    ensures DecoderRefsExact(Unref(refs, frames[h].decoder), decoder, frames - {h})
  {
    var refs', frames' := Unref(refs, frames[h].decoder), frames - {h};
    forall d
      ensures d in refs' <==> decoder == Some(d) || Holders(frames', d) != {}
      ensures d in refs' ==> refs'[d] == One(decoder == Some(d)) + |Holders(frames', d)|
    {
      HoldersRemove(frames, h, d);
      assert |Holders(frames', d)| == 0 <==> Holders(frames', d) == {};
    }
  }

  lemma GetAges(p: Pool)
    requires AgesExact(p.infos, p.surface_age, p.handed) && Oldest(p.infos, |p.infos|).Some?
    ensures var i := Oldest(p.infos, |p.infos|).value;
            AgesExact(p.infos[i := Info(true, p.surface_age)], p.surface_age + 1, p.handed + [i])
  {
    var i := Oldest(p.infos, |p.infos|).value;
    assert (p.handed + [i])[..|p.handed|] == p.handed;
    if p.handed == [] {
      assert LastHandout(p.handed, 0) == -1 && LastHandout(p.handed, i) == -1;
    }
  }

  lemma GetFrames(surfaces: seq<Address>, infos: seq<Info>, frames: map<nat, Frame>, h: nat, f: Frame, i: nat, age: nat)
    requires UsedExact(surfaces, infos, frames) && Injective(frames) && Distinct(surfaces)
    requires h !in frames && i < |surfaces| && f.surface == surfaces[i] && !infos[i].used
    ensures UsedExact(surfaces, infos[i := Info(true, age)], frames[h := f]) && Injective(frames[h := f])
  {
    forall a ensures Held(frames[h := f], a) <==> Held(frames, a) || a == f.surface {
      HeldAdd(frames, h, f, a);
    }
    assert forall k :: k in frames ==> Held(frames, frames[k].surface);
  }

  lemma GetKeeps(p: Pool, h: nat)
    requires Inv(p) && h !in p.frames
    ensures Inv(Get(p, h))
  {
    if Oldest(p.infos, |p.infos|).Some? {
      var i := Oldest(p.infos, |p.infos|).value;
      var f := Frame(p.surfaces[i], p.decoder.value, p.generation, i);
      assert !Held(p.frames, f.surface);
      GetAges(p);
      GetFrames(p.surfaces, p.infos, p.frames, h, f, i, p.surface_age);
      SurfaceRefsAdd(p.surfaceRefs, p.surfaces, p.frames, h, f);
      DecoderRefsAdd(p.decoderRefs, p.decoder, p.frames, h, f);
      GetGenerations(p, h);
    }
  }

  lemma GetGenerations(p: Pool, h: nat)
    requires GenerationsExact(p) && |p.surfaces| == |p.infos| && (p.surfaces != [] ==> p.decoder.Some?)
    ensures GenerationsExact(Get(p, h))
  {
  }

  lemma {:induction false} FreedIs(surfaces: seq<Address>, infos: seq<Info>, surface: Address)
    requires |surfaces| == |infos| && Distinct(surfaces)
    ensures var r := Freed(surfaces, infos, surface);
            && |r| == |infos|
            && forall i :: 0 <= i < |r| ==>
                 r[i] == if surfaces[i] == surface then infos[i].(used := false) else infos[i]
    decreases |surfaces|
  {
    if surfaces != [] && surfaces[0] != surface {
      FreedIs(surfaces[1..], infos[1..], surface);
    }
  }

  lemma ReleaseKeeps(p: Pool, h: nat)
    requires Inv(p) && h in p.frames
    ensures p.frames[h].surface in p.surfaceRefs && p.frames[h].decoder in p.decoderRefs
    ensures Inv(Release(p, h))
  {
    InvOwned(p);
    FreedIs(p.surfaces, p.infos, p.frames[h].surface);
    SurfaceRefsRemove(p.surfaceRefs, p.surfaces, p.frames, h);
    DecoderRefsRemove(p.decoderRefs, p.decoder, p.frames, h);
    ReleaseFrames(p.surfaces, p.infos, p.frames, h);
  }

  lemma ReleaseFrames(surfaces: seq<Address>, infos: seq<Info>, frames: map<nat, Frame>, h: nat)
    requires UsedExact(surfaces, infos, frames) && Injective(frames) && Distinct(surfaces) && h in frames
    ensures UsedExact(surfaces, Freed(surfaces, infos, frames[h].surface), frames - {h}) && Injective(frames - {h})
  {
    FreedIs(surfaces, infos, frames[h].surface);
    forall a ensures Held(frames - {h}, a) <==> Held(frames, a) && a != frames[h].surface {
      HeldRemove(frames, h, a);
    }
  }

  lemma {:induction false} UnrefAllIs(refs: map<Address, nat>, surfaces: seq<Address>)
    requires forall i :: 0 <= i < |surfaces| ==> surfaces[i] in refs
    requires Distinct(surfaces)
    ensures var r := UnrefAll(refs, surfaces);
            && (forall a :: a in r <==> a in refs && !(a in surfaces && refs[a] <= 1))
            && (forall a :: a in r ==> r[a] == if a in surfaces then refs[a] - 1 else refs[a])
    decreases |surfaces|
  {
    if surfaces != [] {
      UnrefAllIs(Unref(refs, surfaces[0]), surfaces[1..]);
      assert forall a :: a in surfaces <==> a == surfaces[0] || a in surfaces[1..];
    }
  }

  lemma DestroyRefs(p: Pool)
    requires Owned(p)
    requires SurfaceRefsExact(p.surfaceRefs, p.surfaces, p.frames)
    requires DecoderRefsExact(p.decoderRefs, p.decoder, p.frames)
    ensures SurfaceRefsExact(Destroy(p).surfaceRefs, [], p.frames)
    ensures DecoderRefsExact(Destroy(p).decoderRefs, None, p.frames)
  {
    UnrefAllIs(p.surfaceRefs, p.surfaces);
  }

  lemma DestroyKeeps(p: Pool)
    requires Inv(p)
    ensures Owned(p) && Inv(Destroy(p))
  {
    InvOwned(p);
    DestroyRefs(p);
  }

  lemma RecreateKeeps(p: Pool, surfaces: seq<Address>, decoder: Address)
    requires Inv(p) && Owned(p) && Fresh(Emptied(p), surfaces, decoder)
    ensures Inv(Recreate(p, surfaces, decoder))
  {
    if p.decoder.Some? {
      DestroyKeeps(p);
    }
    NewPool(Emptied(p), surfaces, decoder);
  }

  lemma NewPool(d: Pool, surfaces: seq<Address>, decoder: Address)
    requires Inv(d) && d.decoder.None? && Fresh(d, surfaces, decoder)
    ensures SurfaceRefsExact(AddRefAll(d.surfaceRefs, surfaces), surfaces, d.frames)
    ensures DecoderRefsExact(d.decoderRefs[decoder := 1], Some(decoder), d.frames)
    ensures forall i :: 0 <= i < |surfaces| ==> !Held(d.frames, surfaces[i])
    ensures forall h :: h in d.frames ==> d.frames[h].surface !in surfaces
    ensures d.handed == []
  {
    NotHeld(d, surfaces, decoder);
    NewSurfaceRefs(d.surfaceRefs, surfaces, d.frames);
    NewDecoderRefs(d.decoderRefs, decoder, d.frames);
  }

  lemma NotHeld(d: Pool, surfaces: seq<Address>, decoder: Address)
    requires Inv(d) && Fresh(d, surfaces, decoder)
    ensures forall i :: 0 <= i < |surfaces| ==> !Held(d.frames, surfaces[i])
    ensures forall h :: h in d.frames ==> d.frames[h].surface !in surfaces
  {
    forall i | 0 <= i < |surfaces| ensures !Held(d.frames, surfaces[i]) {
      assert surfaces[i] !in d.surfaceRefs;
    }
    forall h | h in d.frames ensures d.frames[h].surface !in surfaces {
      assert Held(d.frames, d.frames[h].surface);
    }
  }

  lemma NewSurfaceRefs(refs: map<Address, nat>, surfaces: seq<Address>, frames: map<nat, Frame>)
    requires SurfaceRefsExact(refs, [], frames) && forall i :: 0 <= i < |surfaces| ==> surfaces[i] !in refs
    ensures SurfaceRefsExact(AddRefAll(refs, surfaces), surfaces, frames)
  {
    forall a | a in surfaces ensures !Held(frames, a) {
      assert a !in refs;
    }
  }

  lemma NewDecoderRefs(refs: map<Address, nat>, decoder: Address, frames: map<nat, Frame>)
    requires DecoderRefsExact(refs, None, frames) && decoder !in refs
    ensures DecoderRefsExact(refs[decoder := 1], Some(decoder), frames)
  {
    assert Holders(frames, decoder) == {};
  }

  // ---------------------------------------------------------------- every run

  datatype Op =
    | GetBuffer(h: nat)
    | ReleaseBuffer(h: nat)
    | DestroyDecoder
    | Init(surfaces: seq<Address>, decoder: Address)

  ghost predicate Allowed(p: Pool, op: Op) {
    && Owned(p)
    && match op
       case GetBuffer(h) => h !in p.frames && (p.surfaces != [] ==> p.decoder.Some?)
       case ReleaseBuffer(h) =>
         h in p.frames && p.frames[h].surface in p.surfaceRefs && p.frames[h].decoder in p.decoderRefs
       case DestroyDecoder => true
       case Init(surfaces, decoder) => Fresh(Emptied(p), surfaces, decoder)
  }

  function Apply(p: Pool, op: Op): Pool
    requires Allowed(p, op)
  {
    match op
    case GetBuffer(h) => Get(p, h)
    case ReleaseBuffer(h) => Release(p, h)
    case DestroyDecoder => Destroy(p)
    case Init(surfaces, decoder) => Recreate(p, surfaces, decoder)
  }

  lemma ApplyKeeps(p: Pool, op: Op)
    requires Inv(p) && Allowed(p, op)
    ensures Inv(Apply(p, op))
  {
    match op
    case GetBuffer(h) => GetKeeps(p, h);
    case ReleaseBuffer(h) => ReleaseKeeps(p, h);
    case DestroyDecoder => DestroyKeeps(p);
    case Init(surfaces, decoder) => RecreateKeeps(p, surfaces, decoder);
  }

  /** Any run of gets, releases, destroys and re-creates, started without a pool. */
  ghost predicate IsRun(run: seq<Pool>, ops: seq<Op>) {
    && |run| == |ops| + 1 && run[0] == EMPTY
    && forall i :: 0 <= i < |ops| ==> Allowed(run[i], ops[i]) && run[i + 1] == Apply(run[i], ops[i])
  }

  lemma {:induction false} RunInv(run: seq<Pool>, ops: seq<Op>, i: nat)
    requires IsRun(run, ops) && i < |run|
    ensures Inv(run[i])
    decreases i
  {
    if i == 0 {
      assert forall a :: !Held(map[], a);
      assert forall d :: Holders(map[], d) == {};
    } else {
      RunInv(run, ops, i - 1);
      ApplyKeeps(run[i - 1], ops[i - 1]);
    }
  }

  /** In every run: two outstanding frames never share a surface, a surface a frame holds is alive,
      and once the pool is destroyed and the last frame released nothing is left alive. */
  lemma RunIsSafe(run: seq<Pool>, ops: seq<Op>, i: nat)
    requires IsRun(run, ops) && i < |run|
    ensures var p := run[i];
            && (forall h, k :: h in p.frames && k in p.frames && p.frames[h].surface == p.frames[k].surface ==> h == k)
            && (forall h :: h in p.frames ==> p.frames[h].surface in p.surfaceRefs && p.frames[h].decoder in p.decoderRefs)
            && (p.frames == map[] && p.decoder.None? ==> p.surfaceRefs == map[] && p.decoderRefs == map[])
  {
    RunInv(run, ops, i);
    var p := run[i];
    InvOwned(p);
    if p.frames == map[] && p.decoder.None? {
      assert forall a :: !Held(p.frames, a);
      assert forall d :: Holders(p.frames, d) == {};
    }
  }

  /** A get succeeds exactly when some surface of the pool is held by no frame, of this pool or an earlier
      one. The new frame then has such a surface, with the decoder and the number of this pool; other
      frames, the surfaces and the decoder stay. A get that fails changes nothing. */
  lemma GetGivesFreeSurface(p: Pool, h: nat)
    requires Inv(p) && h !in p.frames
    ensures var p' := Get(p, h);
            && p'.surfaces == p.surfaces && p'.decoder == p.decoder && p'.generation == p.generation
            && (h in p'.frames <==> exists i :: 0 <= i < |p.surfaces| && !Held(p.frames, p.surfaces[i]))
            && (h !in p'.frames ==> p' == p)
            && (h in p'.frames ==>
                  var w := p'.frames[h];
                  && p'.frames == p.frames[h := w] && w.index < |p.surfaces|
                  && w == Frame(p.surfaces[w.index], p.decoder.value, p.generation, w.index)
                  && !Held(p.frames, w.surface) && p'.handed == p.handed + [w.index])
  {
    var old_unused := Oldest(p.infos, |p.infos|);
    if old_unused.Some? {
      assert !Held(p.frames, p.surfaces[old_unused.value]);
    } else {
      forall i | 0 <= i < |p.surfaces| ensures Held(p.frames, p.surfaces[i]) {
        assert p.infos[i].used;
      }
    }
  }

  /** Destroying the pool leaves the frames, and alive exactly what they hold. */
  lemma DestroyLeavesFrames(p: Pool)
    requires Inv(p)
    ensures Owned(p)
    ensures var p' := Destroy(p);
            && p'.surfaces == [] && p'.decoder.None? && p'.frames == p.frames && p'.generation == p.generation
            && (forall a :: a in p'.surfaceRefs <==> exists h :: h in p.frames && p.frames[h].surface == a)
            && (forall d :: d in p'.decoderRefs <==> exists h :: h in p.frames && p.frames[h].decoder == d)
  {
    DestroyKeeps(p);
    var p' := Destroy(p);
    forall a ensures a in p'.surfaceRefs <==> exists h :: h in p.frames && p.frames[h].surface == a {
      assert a in p'.surfaceRefs <==> Held(p'.frames, a);
    }
    forall d ensures d in p'.decoderRefs <==> exists h :: h in p.frames && p.frames[h].decoder == d {
      HoldersSome(p.frames, d);
    }
  }

  lemma HoldersSome(frames: map<nat, Frame>, d: Address)
    ensures Holders(frames, d) != {} <==> exists h :: h in frames && frames[h].decoder == d
  {
    if h :| h in frames && frames[h].decoder == d {
      assert h in Holders(frames, d);
    }
  }

  /** A new pool has the new surfaces, all free, and the new decoder; the frames of the pools before it
      stay, and hold none of its surfaces. */
  lemma RecreateIsFresh(p: Pool, surfaces: seq<Address>, decoder: Address)
    requires Inv(p) && Owned(p) && Fresh(Emptied(p), surfaces, decoder)
    ensures var p' := Recreate(p, surfaces, decoder);
            && p'.surfaces == surfaces && p'.decoder == Some(decoder) && p'.frames == p.frames
            && p'.generation == p.generation + 1
            && (forall i :: 0 <= i < |surfaces| ==> !p'.infos[i].used && !Held(p'.frames, surfaces[i]))
            && forall h :: h in p.frames ==> p'.frames[h].generation < p'.generation
  {
    if p.decoder.Some? {
      DestroyKeeps(p);
    }
    NotHeld(Emptied(p), surfaces, decoder);
  }

  // Where the surface of a frame of this pool, and of an earlier one, is among the slots.
  lemma OwnSlot(p: Pool, h: nat)
    requires Inv(p) && h in p.frames && p.frames[h].generation == p.generation && p.decoder.Some?
    ensures var i := p.frames[h].index;
            && i < |p.infos| && p.infos[i].used && p.surfaces[i] == p.frames[h].surface
            && Freed(p.surfaces, p.infos, p.frames[h].surface) == p.infos[i := p.infos[i].(used := false)]
  {
    FreedIs(p.surfaces, p.infos, p.frames[h].surface);
    assert Held(p.frames, p.frames[h].surface);
  }

  lemma NoSlot(p: Pool, h: nat)
    requires Inv(p) && h in p.frames && !(p.frames[h].generation == p.generation && p.decoder.Some?)
    ensures Freed(p.surfaces, p.infos, p.frames[h].surface) == p.infos
  {
    FreedIs(p.surfaces, p.infos, p.frames[h].surface);
    assert p.frames[h].surface !in p.surfaces;
  }

  /** Releasing a frame of an earlier pool changes no slot of the present pool, while releasing a
      frame of this pool frees exactly its slot. */
  lemma LateReleaseIsHarmless(p: Pool, h: nat)
    requires Inv(p) && Allowed(p, ReleaseBuffer(h))
    ensures var w, p' := p.frames[h], Release(p, h);
            && p'.frames == p.frames - {h} && p'.surfaces == p.surfaces && p'.decoder == p.decoder
            && if w.generation == p.generation && p.decoder.Some?
               then w.index < |p.infos| && p.infos[w.index].used && p.surfaces[w.index] == w.surface
                    && p'.infos == p.infos[w.index := p.infos[w.index].(used := false)]
               else p'.infos == p.infos
  {
    if p.frames[h].generation == p.generation && p.decoder.Some? {
      OwnSlot(p, h);
    } else {
      NoSlot(p, h);
    }
  }

  /** The surface handed out is the least recently handed out free one (never being the least
      recent), except in one case: the very first surface is free again, was not handed out since,
      and some surface was never handed out. Both then have age 0 and the first one wins. */
  lemma LeastRecentlyHandedOutIff(p: Pool, h: nat)
    requires Inv(p) && h !in p.frames && h in Get(p, h).frames
    ensures var j := Get(p, h).frames[h].index;
            (forall i :: 0 <= i < |p.infos| && !p.infos[i].used ==>
               LastHandout(p.handed, j) <= LastHandout(p.handed, i))
            <==>
            !(p.surface_age > 0 && !p.infos[0].used && p.infos[0].age == 0
              && exists k :: 0 < k < |p.infos| && !p.infos[k].used && p.infos[k].age == 0)
  {
    var j := Get(p, h).frames[h].index;
    if p.surface_age > 0 && !p.infos[0].used && p.infos[0].age == 0 {
      if k :| 0 < k < |p.infos| && !p.infos[k].used && p.infos[k].age == 0 {
        assert j == 0;
        assert LastHandout(p.handed, k) == -1 && LastHandout(p.handed, 0) == 0;
      }
    }
  }

  // A pool of the surfaces 1 and 2: new, with the first handed out, and with it given back.
  const TWO_NEW := Pool([1, 2], [Info(false, 0), Info(false, 0)], 0, Some(7), map[1 := 1, 2 := 1], map[7 := 1], map[], 1, [])
  const FIRST_OUT := Pool([1, 2], [Info(true, 0), Info(false, 0)], 1, Some(7), map[1 := 2, 2 := 1], map[7 := 2],
                          map[0 := Frame(1, 7, 1, 0)], 1, [0])
  const FIRST_BACK := Pool([1, 2], [Info(false, 0), Info(false, 0)], 1, Some(7), map[1 := 1, 2 := 1], map[7 := 1], map[],
                           1, [0])

  lemma NewTwo()
    ensures Allowed(EMPTY, Init([1, 2], 7)) && Apply(EMPTY, Init([1, 2], 7)) == TWO_NEW
  {
    var p := Apply(EMPTY, Init([1, 2], 7));
    assert p.surfaceRefs == map[1 := 1, 2 := 1] && p.decoderRefs == map[7 := 1];
    assert p.infos == TWO_NEW.infos;
  }

  lemma HandFirst()
    ensures Allowed(TWO_NEW, GetBuffer(0)) && Apply(TWO_NEW, GetBuffer(0)) == FIRST_OUT
  {
    OldestOfTwo(TWO_NEW.infos);
    var p := Get(TWO_NEW, 0);
    assert p.infos == FIRST_OUT.infos && p.handed == [0] && p.frames == FIRST_OUT.frames;
    MoreRefs();
  }

  lemma MoreRefs()
    ensures AddRef(TWO_NEW.surfaceRefs, 1) == FIRST_OUT.surfaceRefs
    ensures AddRef(TWO_NEW.decoderRefs, 7) == FIRST_OUT.decoderRefs
  {
  }

  lemma GiveBack()
    ensures Allowed(FIRST_OUT, ReleaseBuffer(0)) && Apply(FIRST_OUT, ReleaseBuffer(0)) == FIRST_BACK
  {
    var p := Release(FIRST_OUT, 0);
    assert p.infos == FIRST_BACK.infos && p.frames == map[];
    assert p.surfaceRefs == FIRST_BACK.surfaceRefs && p.decoderRefs == FIRST_BACK.decoderRefs;
  }

  lemma OldestOfTwo(infos: seq<Info>)
    requires infos == [Info(false, 0), Info(false, 0)]
    ensures Oldest(infos, 2) == Some(0)
  {
    assert Oldest(infos, 1) == Some(0);
  }

  /** A run reaches the exception: a pool of two surfaces hands out the first one, gets it back, and
      would hand it out again although the second was never used. */
  lemma TieIsReached() returns (run: seq<Pool>, ops: seq<Op>)
    ensures ops == [Init([1, 2], 7), GetBuffer(0), ReleaseBuffer(0)] && IsRun(run, ops) && run[3] == FIRST_BACK
    ensures Oldest(FIRST_BACK.infos, 2) == Some(0)
    ensures LastHandout(FIRST_BACK.handed, 0) == 0 && LastHandout(FIRST_BACK.handed, 1) == -1
  {
    NewTwo();
    HandFirst();
    GiveBack();
    OldestOfTwo(FIRST_BACK.infos);
    assert [0][..0] == [];
    run, ops := [EMPTY, TWO_NEW, FIRST_OUT, FIRST_BACK], [Init([1, 2], 7), GetBuffer(0), ReleaseBuffer(0)];
  }

  // ---------------------------------------------------------------- the code

  class DXVA2Context {
    var surfaces: seq<Address>
    var surface_infos: seq<Info>
    var surface_age: nat
    var decoder: Option<Address>
    var surfaceRefs: map<Address, nat>  // the COM objects alive
    var decoderRefs: map<Address, nat>
    var frames: map<nat, Frame>         // the wrappers not yet released
    var generation: nat                 // history: how many pools there were
    ghost var handed: seq<nat>

    ghost function Model(): Pool
      reads this
    {
      Pool(surfaces, surface_infos, surface_age, decoder, surfaceRefs, decoderRefs, frames, generation, handed)
    }

    constructor ()
      ensures Model() == EMPTY
    {
      surfaces, surface_infos, surface_age, decoder := [], [], 0, None;
      surfaceRefs, decoderRefs, frames := map[], map[], map[];
      generation, handed := 0, [];
    }

    /** The search of dxva2_get_buffer; -1 when every surface is used. */
    method FindOldest() returns (old_unused: int)
      requires |surfaces| == |surface_infos|
      ensures var r := Oldest(surface_infos, |surface_infos|); old_unused == if r.Some? then r.value else -1
    {
      old_unused := -1;
      var i := 0;
      while i < |surfaces|
        invariant 0 <= i <= |surfaces|
        invariant old_unused == if Oldest(surface_infos, i).Some? then Oldest(surface_infos, i).value else -1
      {
        var info := surface_infos[i];
        if !info.used && (old_unused == -1 || info.age < surface_infos[old_unused].age) {
          old_unused := i;
        }
        i := i + 1;
      }
    }

    /** dxva2_get_buffer: false is AVERROR(ENOMEM). */
    method GetBuffer(h: nat) returns (ok: bool)
      requires Allowed(Model(), Op.GetBuffer(h))
      modifies this
      ensures Model() == Get(old(Model()), h)
      ensures ok <==> exists i :: 0 <= i < |old(surface_infos)| && !old(surface_infos)[i].used
    {
      var old_unused := FindOldest();
      if old_unused == -1 {
        return false;
      }
      var i := old_unused;
      var surface := surfaces[i];
      surfaceRefs := AddRef(surfaceRefs, surface);
      decoderRefs := AddRef(decoderRefs, decoder.value);
      frames := frames[h := Frame(surface, decoder.value, generation, i)];
      surface_infos := surface_infos[i := Info(true, surface_age)];
      surface_age := surface_age + 1;
      handed := handed + [i];
      ok := true;
    }

    /** dxva2_release_buffer */
    method ReleaseBuffer(h: nat)
      requires Allowed(Model(), Op.ReleaseBuffer(h))
      modifies this
      ensures Model() == Apply(old(Model()), Op.ReleaseBuffer(h))
    {
      var w := frames[h];
      FreedIs(surfaces, surface_infos, w.surface);
      ghost var goal := Freed(surfaces, surface_infos, w.surface);
      var i := 0;
      while i < |surfaces|
        invariant 0 <= i <= |surfaces| && Model() == old(Model())
        invariant forall k :: 0 <= k < i ==> surfaces[k] != w.surface
      {
        if surfaces[i] == w.surface {
          surface_infos := surface_infos[i := surface_infos[i].(used := false)];
          break;
        }
        i := i + 1;
      }
      assert surface_infos == goal;
      surfaceRefs := Unref(surfaceRefs, w.surface);
      decoderRefs := Unref(decoderRefs, w.decoder);
      frames := frames - {h};
    }

    /** dxva2_destroy_decoder */
    method DestroyDecoder()
      requires Owned(Model())
      modifies this
      ensures Model() == Destroy(old(Model()))
    {
      var i := 0;
      while i < |surfaces|
        invariant 0 <= i <= |surfaces|
        invariant Model() == old(Model()).(surfaceRefs := surfaceRefs)
        invariant forall k :: i <= k < |surfaces| ==> surfaces[k] in surfaceRefs
        invariant UnrefAll(surfaceRefs, surfaces[i..]) == UnrefAll(old(surfaceRefs), surfaces)
      {
        assert surfaces[i..][0] == surfaces[i] && surfaces[i..][1..] == surfaces[i + 1..];
        surfaceRefs := Unref(surfaceRefs, surfaces[i]);
        i := i + 1;
      }
      surfaces := [];
      surface_infos := [];
      surface_age := 0;
      handed := [];
      if decoder.Some? {
        decoderRefs := Unref(decoderRefs, decoder.value);
        decoder := None;
      }
    }

    /** dxva2_init with the surfaces and the decoder the driver creates; when it creates no decoder
        the pool stays empty, as the new surfaces are released again. */
    method Init(newSurfaces: seq<Address>, newDecoder: Option<Address>)
      requires Owned(Model())
      requires newDecoder.Some? ==> Fresh(Emptied(Model()), newSurfaces, newDecoder.value)
      modifies this
      ensures Model() == if newDecoder.Some? then Recreate(old(Model()), newSurfaces, newDecoder.value)
                         else Emptied(old(Model()))
    {
      if decoder.Some? {
        DestroyDecoder();
      }
      if newDecoder.None? {
        return;
      }
      surfaces := newSurfaces;
      surface_infos := seq(|newSurfaces|, _ => Info(false, 0));
      surfaceRefs := AddRefAll(surfaceRefs, newSurfaces);
      decoderRefs := decoderRefs[newDecoder.value := 1];
      decoder := newDecoder;
      generation := generation + 1;
    }
  }
}
