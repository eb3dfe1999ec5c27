// Runs of the whole bit writer: any number of streams, started, written to,
// joined, nested and ended in any order, against a map of plain bit strings.
module Session {
  import opened Bits
  import opened Codes
  import opened Files
  import opened Bitstreams
  import opened Script

  datatype Cmd =
    | Start(h: nat, toFile: bool)
    | Write(h: nat, item: Item)
    | Join(h: nat, g: nat)
    | Nest(h: nat, g: nat)
    | End(h: nat)

  datatype Entry = Entry(bits: seq<bool>, toFile: bool)

  // The live streams' bits, and those of the files closed so far.
  datatype Model = Model(live: map<nat, Entry>, closed: seq<seq<bool>>)

  // Commands that the callers of the library must not issue are skipped.
  predicate Allowed(m: Model, c: Cmd) {
    match c
    case Start(h, _) => h !in m.live
    case Write(h, item) => h in m.live && item.Ok()
    case Join(h, g) => h in m.live && g in m.live && h != g && !m.live[g].toFile
    case Nest(h, g) => h in m.live && g in m.live && h != g && !m.live[g].toFile
    case End(h) => h in m.live
  }

  function Step(m: Model, c: Cmd): Model {
    if !Allowed(m, c) then m
    else match c
      case Start(h, toFile) => m.(live := m.live[h := Entry([], toFile)])
      case Write(h, item) => Extend(m, h, ItemBits(item, |m.live[h].bits|))
      case Join(h, g) => Extend(m, h, m.live[g].bits).(live := Extend(m, h, m.live[g].bits).live - {g})
      case Nest(h, g) =>
        var s := m.live[g].bits;
        var m' := Extend(m, h, IntBits(|s| % WORD) + s);
        m'.(live := m'.live - {g})
      case End(h) =>
        var e := m.live[h];
        Model(m.live - {h}, if e.toFile then m.closed + [e.bits + Zeros(PadTo8(|e.bits|))] else m.closed)
  }

  // What the commands do to streams that are live, and to a new one.
  lemma StepLive(m: Model, h: nat, g: nat, toFile: bool, item: Item)
    ensures h !in m.live ==> Step(m, Start(h, toFile)) == Model(m.live[h := Entry([], toFile)], m.closed)
    ensures h in m.live && item.Ok() ==>
              var e := m.live[h];
              Step(m, Write(h, item)) ==
              Model(m.live[h := Entry(e.bits + ItemBits(item, |e.bits|), e.toFile)], m.closed)
    ensures h in m.live && g in m.live && h != g && !m.live[g].toFile ==>
              var (e, d) := (m.live[h], m.live[g]);
              && Step(m, Join(h, g)) == Model(m.live[h := Entry(e.bits + d.bits, e.toFile)] - {g}, m.closed)
              && Step(m, Nest(h, g)) ==
                 Model(m.live[h := Entry(e.bits + (IntBits(|d.bits| % 0x1_0000_0000) + d.bits), e.toFile)] - {g},
                       m.closed)
    ensures h in m.live && m.live[h].toFile ==>
              var e := m.live[h];
              Step(m, End(h)) == Model(m.live - {h}, m.closed + [e.bits + Zeros(PadTo8(|e.bits|))])
    ensures h in m.live && !m.live[h].toFile ==> Step(m, End(h)) == Model(m.live - {h}, m.closed)
  {
    hide ItemBits, IntBits, Zeros, PadTo8, Item.Ok;
    assert WORD == 0x1_0000_0000;
  }

  function Extend(m: Model, h: nat, s: seq<bool>): Model
    requires h in m.live
  {
    m.(live := m.live[h := m.live[h].(bits := m.live[h].bits + s)])
  }

  function Steps(m: Model, cs: seq<Cmd>): Model
    decreases |cs|
  {
    if cs == [] then m else Steps(Step(m, cs[0]), cs[1..])
  }

  // The stream s has the bits of e and lives in the region reg.
  ghost predicate Stands(s: Bitstream, e: Entry, reg: set<object>)
    reads reg
  {
    && s in reg && s.repr <= reg && (s.file != null ==> s.file in reg && s.file !in s.repr)
    && s.Valid() && s in s.repr
    && s.Content() == e.bits
    && (s.file != null) == e.toFile
  }

  // What every command keeps of one stream: it stays in a region of its own,
  // taking objects only from old regions, the free list or fresh memory.
  twostate predicate Moved(lib: Library, new r: Bitstream, e: Entry, was: set<object>, new reg: set<object>)
    reads lib, lib.freeRepr, reg
  {
    && lib.Valid() && lib !in reg
    && Stands(r, e, reg) && reg !! lib.freeRepr
    && lib.freeRepr <= old(lib.freeRepr) + was
    && fresh(reg - was - old(lib.freeRepr))
  }

  ghost function Region(s: Bitstream): set<object>
    reads s
  {
    s.repr + if s.file == null then {} else {s.file}
  }

  // A well-formed stream stands in its own region.
  lemma StandsIn(lib: Library, s: Bitstream)
    requires lib.Live(s)
    ensures Stands(s, Entry(s.Content(), s.file != null), Region(s))
    ensures Region(s) !! lib.freeRepr && lib !in Region(s)
  {
    hide Linked, Memory, ChainBits, Objs, Bitstream.Content, Bitstream.Valid;
    if s.file != null {
      lib.FileApart(s);
    }
  }

  method StartOne(lib: Library, toFile: bool) returns (r: Bitstream, ghost reg: set<object>)
    requires lib.Valid()
    modifies lib, lib.freeRepr
    ensures Moved(lib, r, Entry([], toFile), {}, reg)
  {
    hide Linked, Memory, ChainBits, Objs, BytesBits, Bitstream.Content, Bitstream.Valid;
    var f: File? := null;
    if toFile {
      f := new File([]);
    }
    r := lib.StartBitstream(f);
    NoBytes([]);
    StandsIn(lib, r);
    reg := Region(r);
  }

  method WriteOne(lib: Library, s: Bitstream, item: Item, ghost e: Entry, ghost was: set<object>)
    returns (r: Bitstream, ghost reg: set<object>)
    requires lib.Valid() && Stands(s, e, was) && was !! lib.freeRepr && lib !in was && item.Ok()
    modifies lib, lib.freeRepr, was
    ensures Moved(lib, r, e.(bits := e.bits + ItemBits(item, |e.bits|)), was, reg)
  {
    hide Linked, Memory, ChainBits, Objs, BytesBits, ItemBits, Item.Ok, Bitstream.Content, Bitstream.Valid;
    r := WriteItem(lib, s, item);
    StandsIn(lib, r);
    reg := Region(r);
  }

  method JoinOne(lib: Library, s: Bitstream, t: Bitstream, nest: bool,
                 ghost e: Entry, ghost d: Entry, ghost was: set<object>, ghost wasT: set<object>)
    returns (r: Bitstream, ghost reg: set<object>)
    requires lib.Valid() && Stands(s, e, was) && was !! lib.freeRepr && lib !in was
    requires Stands(t, d, wasT) && wasT !! lib.freeRepr && lib !in wasT && was !! wasT && !d.toFile
    modifies lib, lib.freeRepr, was, wasT
    ensures var added := if nest then IntBits(|d.bits| % WORD) + d.bits else d.bits;
            Moved(lib, r, e.(bits := e.bits + added), was + wasT, reg)
  {
    hide Linked, Memory, ChainBits, Objs, BytesBits, IntBits, Bitstream.Content, Bitstream.Valid;
    if nest {
      r := lib.EncBitstream(s, t);
    } else {
      r := lib.JoinStreams(s, t);
    }
    StandsIn(lib, r);
    reg := Region(r);
  }

  method EndOne(lib: Library, s: Bitstream, ghost e: Entry, ghost was: set<object>) returns (f: File?)
    requires lib.Valid() && Stands(s, e, was) && was !! lib.freeRepr && lib !in was
    modifies lib, lib.freeRepr, was
    ensures lib.Valid() && lib.freeRepr <= old(lib.freeRepr) + was
    ensures f == old(s.file) && (f != null) == e.toFile
    ensures f != null ==> f in was && f !in lib.freeRepr && BytesBits(f.data) == e.bits + Zeros(PadTo8(|e.bits|))
  {
    hide Linked, Memory, ChainBits, Objs, BytesBits, Zeros, PadTo8, Bitstream.Content, Bitstream.Valid;
    f := s.file;
    lib.EndBitstream(s, true);
  }

  ghost function Union(regions: map<nat, set<object>>): set<object> {
    set h, o | h in regions && o in regions[h] :: o
  }

  // Every stream stands in its region.
  ghost predicate AllStand(streams: map<nat, Bitstream>, live: map<nat, Entry>, regions: map<nat, set<object>>)
    reads Union(regions)
  {
    forall h :: h in regions ==> h in streams && h in live && Stands(streams[h], live[h], regions[h])
  }

  // The regions are disjoint from each other and from everything else.
  ghost predicate Layout(regions: map<nat, set<object>>, rest: set<object>) {
    && Union(regions) !! rest
    && forall h, g :: h in regions && g in regions && h != g ==> regions[h] !! regions[g]
  }

  lemma TakeOut(streams: map<nat, Bitstream>, live: map<nat, Entry>, regions: map<nat, set<object>>,
                rest: set<object>, h: nat)
    requires AllStand(streams, live, regions) && Layout(regions, rest) && h in regions
    ensures h in streams && h in live && Stands(streams[h], live[h], regions[h])
    ensures AllStand(streams, live, regions - {h}) && Layout(regions - {h}, rest + regions[h])
    ensures regions[h] !! rest && regions[h] <= Union(regions)
    ensures Union(regions - {h}) <= Union(regions) && Union(regions - {h}) !! rest + regions[h]
  {
    hide Stands;
    assert regions[h] <= Union(regions);
  }

  lemma TakeOutTwo(streams: map<nat, Bitstream>, live: map<nat, Entry>, regions: map<nat, set<object>>,
                   rest: set<object>, h: nat, g: nat)
    requires AllStand(streams, live, regions) && Layout(regions, rest)
    requires h in regions && g in regions && h != g
    ensures h in streams && h in live && Stands(streams[h], live[h], regions[h])
    ensures g in streams && g in live && Stands(streams[g], live[g], regions[g])
    ensures var others := regions - {h} - {g};
            && AllStand(streams, live, others) && Layout(others, rest + regions[h] + regions[g])
            && Union(others) <= Union(regions) && Union(others) !! rest + regions[h] + regions[g]
    ensures regions[h] !! rest && regions[g] !! rest && regions[h] !! regions[g]
    ensures regions[h] <= Union(regions) && regions[g] <= Union(regions)
  {
    hide Stands, AllStand, Layout, Union;
    TakeOut(streams, live, regions, rest, h);
    TakeOut(streams, live, regions - {h}, rest + regions[h], g);
  }

  lemma PutBack(streams: map<nat, Bitstream>, live: map<nat, Entry>, regions: map<nat, set<object>>,
                rest: set<object>, h: nat, s: Bitstream, e: Entry, reg: set<object>)
    requires AllStand(streams, live, regions) && Layout(regions, rest + reg) && h !in regions
    requires reg !! rest && Stands(s, e, reg)
    ensures AllStand(streams[h := s], live[h := e], regions[h := reg])
    ensures Layout(regions[h := reg], rest)
    ensures Union(regions[h := reg]) == Union(regions) + reg
  {
    hide Stands;
    var all := regions[h := reg];
    assert Union(all) == Union(regions) + reg by {
      forall o | o in reg ensures o in Union(all) { assert h in all && o in all[h]; }
      forall o | o in Union(regions) ensures o in Union(all) {
        var g :| g in regions && o in regions[g];
        assert g in all && o in all[g];
      }
    }
    forall g, g' | g in all && g' in all && g != g' ensures all[g] !! all[g'] {
      if g == h {
        assert all[g'] <= Union(regions);
      } else if g' == h {
        assert all[g] <= Union(regions);
      }
    }
  }

  lemma Narrow(streams: map<nat, Bitstream>, live: map<nat, Entry>, regions: map<nat, set<object>>, drop: set<nat>)
    requires AllStand(streams, live, regions) && regions.Keys !! drop
    ensures AllStand(streams - drop, live - drop, regions)
  {
    hide Stands;
  }

  lemma LayoutApart(regions: map<nat, set<object>>, rest: set<object>)
    requires Layout(regions, rest)
    ensures Union(regions) !! rest
  {
  }

  lemma LayoutFor(regions: map<nat, set<object>>, rest: set<object>, rest': set<object>)
    requires Layout(regions, rest) && Union(regions) !! rest'
    ensures Layout(regions, rest')
  {
  }

  // The real thing: the library, the live streams and the closed files, with
  // the model they are to agree with.
  class World {
    const lib: Library
    var streams: map<nat, Bitstream>
    var closed: seq<File>
    ghost var model: Model
    // Every live stream's region and the closed files.
    ghost var regions: map<nat, set<object>>
    ghost var shut: set<object>
    ghost var repr: set<object>

    ghost function Rest(): set<object>
      reads this, lib
    {
      lib.freeRepr + shut + {lib, this}
    }

    // No live stream shares an object with another one, with the free list or
    // with a closed file, and all of them hold the bits the model says.
    ghost predicate Valid()
      reads this, lib, repr
    {
      && repr == Union(regions) + Rest()
      && lib.Valid() && this !in lib.freeRepr
      && streams.Keys == regions.Keys == model.live.Keys
      && AllStand(streams, model.live, regions)
      && Layout(regions, Rest())
      && ClosedOk(closed, model.closed, shut) && shut !! lib.freeRepr + {lib, this}
    }

    constructor ()
      ensures Valid() && fresh(repr) && model == Model(map[], [])
    {
      lib := new Library();
      streams, closed, model, regions, shut := map[], [], Model(map[], []), map[], {};
      new;
      repr := Rest();
    }

    // The world without the handles in drop: others is what remains, and rest
    // what must stay apart from it.
    ghost predicate Opened(others: map<nat, set<object>>, drop: set<nat>, rest: set<object>)
      reads this, lib, Union(others), lib.freeRepr, shut
    {
      && lib.Valid() && this !in lib.freeRepr && shut !! lib.freeRepr + {lib, this}
      && ClosedOk(closed, model.closed, shut)
      && streams.Keys == model.live.Keys == others.Keys + drop && others.Keys !! drop
      && AllStand(streams, model.live, others) && Layout(others, rest)
    }

    // Let the stream r take handle h, and drop the handles it came from.
    method Place(h: nat, r: Bitstream, drop: set<nat>, ghost e: Entry,
                 ghost others: map<nat, set<object>>, ghost reg: set<object>)
      requires Opened(others, drop, Rest() + reg) && h !in others
      requires Stands(r, e, reg) && reg !! Rest()
      modifies this`streams, this`model, this`regions, this`repr
      ensures Valid() && shut == old(shut) && Union(regions) == Union(others) + reg
      ensures model == old(model).(live := (old(model).live - drop)[h := e])
    {
      hide Stands, AllStand, Layout, Union, ClosedOk, Library.Valid;
      LayoutApart(others, Rest() + reg);
      Narrow(streams, model.live, others, drop);
      streams := streams - drop;
      model := model.(live := model.live - drop);
      PutBack(streams, model.live, others, Rest(), h, r, e, reg);
      streams := streams[h := r];
      model := model.(live := model.live[h := e]);
      regions := others[h := reg];
      repr := Union(regions) + Rest();
    }

    method DoStart(h: nat, toFile: bool)
      requires Valid() && h !in streams
      modifies repr
      ensures Valid() && fresh(repr - old(repr))
      ensures model == old(model).(live := old(model).live[h := Entry([], toFile)])
    {
      hide Stands, AllStand, Layout, Union, ClosedOk, Linked, Objs, Library.Valid;
      ghost var kept := Union(regions);
      assert allocated(kept);
      LayoutApart(regions, Rest());
      var r; ghost var reg;
      r, reg := StartOne(lib, toFile);
      LayoutFor(regions, old(Rest()), Rest() + reg);
      Place(h, r, {}, Entry([], toFile), regions, reg);
    }

    method DoWrite(h: nat, item: Item)
      requires Valid() && h in streams && item.Ok()
      modifies repr
      ensures Valid() && fresh(repr - old(repr))
      ensures model == Extend(old(model), h, ItemBits(item, |old(model).live[h].bits|))
    {
      hide Stands, AllStand, Layout, Union, ClosedOk, ItemBits, Item.Ok, Linked, Objs, Library.Valid;
      TakeOut(streams, model.live, regions, Rest(), h);
      ghost var others, e := regions - {h}, model.live[h];
      ghost var kept := Union(others);
      assert allocated(kept);
      var r; ghost var reg;
      r, reg := WriteOne(lib, streams[h], item, e, regions[h]);
      LayoutFor(others, old(Rest()) + regions[h], Rest() + reg);
      Place(h, r, {h}, e.(bits := e.bits + ItemBits(item, |e.bits|)), others, reg);
    }

    method DoJoin(h: nat, g: nat, nest: bool)
      requires Valid() && h in streams && g in streams && h != g && !model.live[g].toFile
      modifies repr
      ensures Valid() && fresh(repr - old(repr))
      ensures var s := old(model).live[g].bits;
              var m := Extend(old(model), h, if nest then IntBits(|s| % WORD) + s else s);
              model == m.(live := m.live - {g})
    {
      hide Stands, AllStand, Layout, Union, ClosedOk, IntBits, Linked, Objs, Library.Valid;
      TakeOutTwo(streams, model.live, regions, Rest(), h, g);
      ghost var others, e, d := regions - {h} - {g}, model.live[h], model.live[g];
      ghost var kept := Union(others);
      assert allocated(kept);
      var r; ghost var reg;
      r, reg := JoinOne(lib, streams[h], streams[g], nest, e, d, regions[h], regions[g]);
      LayoutFor(others, old(Rest()) + regions[h] + regions[g], Rest() + reg);
      ghost var e' := e.(bits := e.bits + if nest then IntBits(|d.bits| % WORD) + d.bits else d.bits);
      Place(h, r, {h, g}, e', others, reg);
      assert (old(model).live - {h, g})[h := e'] == old(model).live[h := e'] - {g};
    }

    method DoEnd(h: nat)
      requires Valid() && h in streams
      modifies repr
      ensures Valid() && fresh(repr - old(repr))
      ensures model == Step(old(model), End(h))
    {
      hide Stands, AllStand, Layout, Union, ClosedOk, Zeros, PadTo8, Linked, Objs, Library.Valid;
      TakeOut(streams, model.live, regions, Rest(), h);
      ghost var others, e := regions - {h}, model.live[h];
      ghost var kept := Union(others);
      assert allocated(kept);
      var f := EndOne(lib, streams[h], e, regions[h]);
      LayoutFor(others, old(Rest()) + regions[h], Rest() + regions[h]);
      Forget(h, f, others, regions[h], e.bits + Zeros(PadTo8(|e.bits|)));
    }

    // Drop the handle h; if it had a file, record that as closed.
    method Forget(h: nat, f: File?, ghost others: map<nat, set<object>>, ghost reg: set<object>, ghost bits: seq<bool>)
      requires Opened(others, {h}, Rest() + reg)
      requires f != null ==> f in reg && f !in lib.freeRepr + {lib, this} && BytesBits(f.data) == bits
      modifies this`streams, this`closed, this`model, this`regions, this`shut, this`repr
      ensures Valid() && regions == others && shut == old(shut) + (if f == null then {} else {f})
      ensures model == Model(old(model).live - {h}, if f == null then old(model).closed else old(model).closed + [bits])
    {
      hide Stands, AllStand, Layout, Union, ClosedOk, Library.Valid, BytesBits;
      LayoutApart(others, Rest() + reg);
      Narrow(streams, model.live, others, {h});
      streams := streams - {h};
      model := model.(live := model.live - {h});
      regions := others;
      if f != null {
        Shut(f, bits, reg);
      } else {
        repr := Union(regions) + Rest();
        LayoutFor(others, Rest() + reg, Rest());
      }
    }

    // Issue a command if the library allows it.
    method Do(c: Cmd)
      requires Valid()
      modifies repr
      ensures Valid() && fresh(repr - old(repr))
      ensures model == Step(old(model), c)
    {
      hide Stands, AllStand, Layout, Union, ClosedOk, Linked, Objs, Library.Valid, ItemBits, IntBits, Item.Ok;
      match c
      case Start(h, toFile) =>
        if h !in streams { DoStart(h, toFile); }
      case Write(h, item) =>
        if h in streams && item.Ok() { DoWrite(h, item); }
      case Join(h, g) =>
        if h in streams && g in streams && h != g {
          FileFlag(g);
          if streams[g].file == null { DoJoin(h, g, false); }
        }
      case Nest(h, g) =>
        if h in streams && g in streams && h != g {
          FileFlag(g);
          if streams[g].file == null { DoJoin(h, g, true); }
        }
      case End(h) =>
        if h in streams { DoEnd(h); }
    }

    lemma FileFlag(g: nat)
      requires Valid() && g in streams
      ensures streams[g].file != null <==> model.live[g].toFile
    {
      hide Layout, ClosedOk, Linked, Objs, Library.Valid;
      assert Stands(streams[g], model.live[g], regions[g]);
    }

    // Record a closed file, which may come from the region reg.
    method Shut(f: File, ghost bits: seq<bool>, ghost reg: set<object>)
      requires Opened(regions, {}, Rest() + reg) && BytesBits(f.data) == bits
      requires f in reg && f !in lib.freeRepr + {lib, this}
      modifies this`closed, this`model, this`shut, this`repr
      ensures Valid() && shut == old(shut) + {f}
      ensures model == old(model).(closed := old(model).closed + [bits])
    {
      hide Stands, AllStand, Layout, Union, ClosedOk, Library.Valid, BytesBits;
      LayoutApart(regions, Rest() + reg);
      ShutMore(closed, model.closed, shut, f);
      closed := closed + [f];
      model := model.(closed := model.closed + [bits]);
      shut := shut + {f};
      repr := Union(regions) + Rest();
      LayoutFor(regions, old(Rest()) + reg, Rest());
    }
  }

  // The closed files hold their bits.
  ghost predicate ClosedOk(closed: seq<File>, bits: seq<seq<bool>>, shut: set<object>)
    reads shut
  {
    && |closed| == |bits|
    && forall i :: 0 <= i < |closed| ==> closed[i] in shut && BytesBits(closed[i].data) == bits[i]
  }

  lemma ShutMore(closed: seq<File>, bits: seq<seq<bool>>, shut: set<object>, f: File)
    requires ClosedOk(closed, bits, shut)
    ensures ClosedOk(closed + [f], bits + [BytesBits(f.data)], shut + {f})
  {
    hide BytesBits;
  }

  // Issue commands one after the other.
  method RunOn(w: World, cs: seq<Cmd>)
    requires w.Valid()
    modifies w.repr
    ensures w.Valid() && w.model == Steps(old(w.model), cs)
  {
    hide Step, AllStand, Layout, Union, Linked, Objs, Library.Valid, BytesBits, ClosedOk, World.Valid;
    var i := 0;
    assert cs[0..] == cs;
    while i < |cs|
      invariant i <= |cs| && w.Valid() && fresh(w.repr - old(w.repr))
      invariant Steps(w.model, cs[i..]) == Steps(old(w.model), cs)
    {
      assert cs[i..][1..] == cs[i + 1..];
      w.Do(cs[i]);
      i := i + 1;
    }
  }

  // Every run of the library, whatever streams it starts, joins, nests and
  // ends, leaves in its closed files the bits that plain concatenation predicts.
  method Run(cs: seq<Cmd>) returns (files: seq<seq<byte>>)
    ensures var m := Steps(Model(map[], []), cs);
            && |files| == |m.closed|
            && forall i :: 0 <= i < |files| ==> BytesBits(files[i]) == m.closed[i]
  {
    hide Steps, AllStand, Layout, Union, Linked, Objs, Library.Valid, BytesBits;
    var w := new World();
    RunOn(w, cs);
    files := [];
    while |files| < |w.closed|
      invariant |files| <= |w.closed|
      invariant forall j :: 0 <= j < |files| ==> BytesBits(files[j]) == w.model.closed[j]
      decreases |w.closed| - |files|
    {
      files := files + [w.closed[|files|].data];
    }
  }
}
