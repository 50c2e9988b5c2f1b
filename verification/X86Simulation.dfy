/** The x86 code of a fragment means what the fragment means in the source: stacks, data-space pointer,
    variables and constants in registers and memory, before and after (x86_32_backend_generator.py:5-31). */
module X86Simulation {
  import opened Common
  import opened Fragments
  import opened NumCodec
  import opened Semantics
  import opened X86Backend
  import opened X86Machine
  import opened X86Meaning
  import opened X86Control

  /** What an address belongs to. */
  datatype Region = DataStack | ReturnStack | Slots | Globals

  /** Where things are: the word below the first cell of the data stack, the two ends of the return
      stack, the tables that edi and esi point to with the numbers of slots and of callbacks, and what
      every address belongs to. */
  datatype Setting = Setting(base: int, bottom: int, top: int, edi: int, slots: nat, esi: int, callbacks: nat,
                             region: int -> Region)

  /** The data stack has room for its cells, and the return stack, the slots of the variables and
      constants and the words that esi leads to are apart from it and from each other. */
  ghost predicate WellSet(g: Setting) {
    && (forall i :: 0 <= i <= STACK_CELLS ==> g.region(g.base + 4 * i) == DataStack)
    && (forall a :: g.bottom <= a < g.top ==> g.region(a) == ReturnStack)
    && (forall slot :: 0 <= slot < g.slots ==> g.region(g.edi - 4 * slot) == Slots)
    && g.region(g.esi + 16) == Globals && g.region(g.esi + 40) == Globals
  }

  // ----- the representation -----

  /** The top is in eax, the cell below at ebx. */
  ghost predicate HoldsData(g: Setting, c: Core, ds: seq<int>) {
    && c.ebx == g.base + 4 * |ds| && |ds| <= STACK_CELLS
    && (ds != [] ==> c.eax == ds[|ds| - 1])
    && forall i :: 0 <= i < |ds| - 1 ==> Read(c, g.base + 4 * i + 8) == ds[i]
  }

  /** The last cell is at esp. */
  ghost predicate HoldsCells(g: Setting, c: Core, cells: seq<int>) {
    && g.bottom <= c.esp && c.esp + 4 * |cells| <= g.top
    && forall i :: 0 <= i < |cells| ==> Read(c, c.esp + 4 * (|cells| - 1 - i)) == cells[i]
  }

  ghost predicate HoldsWorld(g: Setting, env: Env, c: Core, w: World) {
    && c.esi == g.esi && c.edi == g.edi && c.edx == w.here
    && (forall slot :: slot in w.slots ==> 0 <= slot < g.slots && Read(c, g.edi - 4 * slot) == w.slots[slot])
    && Read(c, g.esi + 16) == env.dataStart
    && var table := Read(c, g.esi + 40);
       forall n :: 0 <= n < g.callbacks ==>
         g.region(table + 4 * n) == Globals && Read(c, table + 4 * n) == env.callbackTarget(n)
  }

  ghost predicate Represents(g: Setting, env: Env, c: Core, l: Local) {
    HoldsData(g, c, l.ds) && HoldsCells(g, c, l.cells) && HoldsWorld(g, env, c, l.w)
  }

  /** Registers and memory represent one data stack, one data-space pointer, one value of a slot and, from
      the top, one row of return cells. */
  lemma {:induction false} RepresentsOne(g: Setting, env: Env, c: Core, l: Local, l1: Local, i: nat)
    requires Represents(g, env, c, l) && Represents(g, env, c, l1)
    ensures l.ds == l1.ds && l.w.here == l1.w.here
    ensures forall slot :: slot in l.w.slots && slot in l1.w.slots ==> l.w.slots[slot] == l1.w.slots[slot]
    ensures i < |l.cells| && i < |l1.cells| ==> l.cells[|l.cells| - 1 - i] == l1.cells[|l1.cells| - 1 - i]
  {
    hide HoldsData, HoldsCells, HoldsWorld;
    SameCells(g, c, l.cells, l1.cells, i);
    SameData(g, c, l.ds, l1.ds);
    SameWorld(g, env, c, l.w, l1.w);
  }

  lemma {:induction false} SameCells(g: Setting, c: Core, xs: seq<int>, ys: seq<int>, i: nat)
    requires HoldsCells(g, c, xs) && HoldsCells(g, c, ys)
    ensures i < |xs| && i < |ys| ==> xs[|xs| - 1 - i] == ys[|ys| - 1 - i]
  {
    hide Read;
    if i < |xs| && i < |ys| {
      assert Read(c, c.esp + 4 * (|xs| - 1 - (|xs| - 1 - i))) == xs[|xs| - 1 - i];
      assert Read(c, c.esp + 4 * (|ys| - 1 - (|ys| - 1 - i))) == ys[|ys| - 1 - i];
    }
  }

  lemma {:induction false} SameData(g: Setting, c: Core, xs: seq<int>, ys: seq<int>)
    requires HoldsData(g, c, xs) && HoldsData(g, c, ys)
    ensures xs == ys
  {
    hide Read;
  }

  lemma {:induction false} SameWorld(g: Setting, env: Env, c: Core, v: World, w: World)
    requires HoldsWorld(g, env, c, v) && HoldsWorld(g, env, c, w)
    ensures v.here == w.here
    ensures forall slot :: slot in v.slots && slot in w.slots ==> v.slots[slot] == w.slots[slot]
  {
    hide Read;
  }

  // ----- every state has a representation -----

  const CELLS_AT := 1000
  const CELLS_END := 2000
  const STRUCT_AT := 3000
  const TABLE_AT := 4000

  function SlotsAt(slots: nat, callbacks: nat): int {
    TABLE_AT + 4 * callbacks + 4 * slots + 4
  }

  function RegionOf(callbacks: nat, a: int): Region {
    if 0 <= a < CELLS_AT then DataStack
    else if CELLS_AT <= a < CELLS_END then ReturnStack
    else if STRUCT_AT <= a < TABLE_AT + 4 * callbacks then Globals
    else Slots
  }

  /** What stands at an address. */
  function Stored(env: Env, l: Local, slots: nat, callbacks: nat, a: int): int {
    if 0 <= a < CELLS_AT then if 8 <= a < 8 + 4 * |l.ds| then l.ds[(a - 8) / 4] else 0
    else if CELLS_AT <= a < CELLS_END then
      if CELLS_END - 4 * |l.cells| <= a then l.cells[(CELLS_END - 1 - a) / 4] else 0
    else if a == STRUCT_AT + 16 then env.dataStart
    else if a == STRUCT_AT + 40 then TABLE_AT
    else if TABLE_AT <= a < TABLE_AT + 4 * callbacks then env.callbackTarget((a - TABLE_AT) / 4)
    else
      var slot := (SlotsAt(slots, callbacks) - a) / 4;
      if slot in l.w.slots then l.w.slots[slot] else 0
  }

  /** Nothing that the representation asks for excludes a state of the source. */
  lemma {:induction false} EveryStateIsRepresented(env: Env, l: Local, slots: nat, callbacks: nat)
    returns (g: Setting, c: Core)
    requires |l.ds| <= STACK_CELLS && |l.cells| <= RETURN_CELLS
    requires forall slot :: slot in l.w.slots ==> 0 <= slot < slots
    ensures g.slots == slots && g.callbacks == callbacks && g.bottom + 4 * RETURN_CELLS <= g.top
    ensures WellSet(g) && Represents(g, env, c, l)
  {
    hide Stored;
    var edi := SlotsAt(slots, callbacks);
    g := Setting(0, CELLS_AT, CELLS_END, edi, slots, STRUCT_AT, callbacks, (a: int) => RegionOf(callbacks, a));
    var mem := map a: int | 0 <= a <= edi :: Stored(env, l, slots, callbacks, a);
    c := Core(TopOf(l.ds), 0, l.w.here, 4 * |l.ds|, CELLS_END - 4 * |l.cells|, 0, STRUCT_AT, edi, mem, None);
    forall a | 0 <= a <= edi ensures Read(c, a) == Stored(env, l, slots, callbacks, a) { }
    DataStored(env, l, slots, callbacks, g, c);
    CellsStored(env, l, slots, callbacks, g, c);
    WorldStored(env, l, slots, callbacks, g, c);
  }

  lemma {:induction false} DataStored(env: Env, l: Local, slots: nat, callbacks: nat, g: Setting, c: Core)
    requires g.base == 0 && c.ebx == 4 * |l.ds| && c.eax == TopOf(l.ds) && |l.ds| <= STACK_CELLS
    requires forall a :: 0 <= a < CELLS_AT ==> Read(c, a) == Stored(env, l, slots, callbacks, a)
    ensures HoldsData(g, c, l.ds)
  {
    hide Read;
  }

  lemma {:induction false} CellsStored(env: Env, l: Local, slots: nat, callbacks: nat, g: Setting, c: Core)
    requires g.bottom == CELLS_AT && g.top == CELLS_END && c.esp == CELLS_END - 4 * |l.cells|
    requires |l.cells| <= RETURN_CELLS
    requires forall a :: CELLS_AT <= a < CELLS_END ==> Read(c, a) == Stored(env, l, slots, callbacks, a)
    ensures HoldsCells(g, c, l.cells)
  {
    hide Read;
  }

  lemma {:induction false} WorldStored(env: Env, l: Local, slots: nat, callbacks: nat, g: Setting, c: Core)
    requires forall slot :: slot in l.w.slots ==> 0 <= slot < slots
    requires g.esi == STRUCT_AT == c.esi && g.edi == SlotsAt(slots, callbacks) == c.edi && c.edx == l.w.here
    requires g.slots == slots && g.callbacks == callbacks
    requires forall a :: STRUCT_AT <= a < TABLE_AT + 4 * callbacks ==> g.region(a) == Globals
    requires forall a :: STRUCT_AT <= a <= SlotsAt(slots, callbacks) ==>
      Read(c, a) == Stored(env, l, slots, callbacks, a)
    ensures HoldsWorld(g, env, c, l.w)
  {
    hide Read, Stored;
    StructStored(env, l, slots, callbacks);
    forall slot | slot in l.w.slots ensures Read(c, g.edi - 4 * slot) == l.w.slots[slot] {
      SlotStored(env, l, slots, callbacks, slot);
    }
    forall n | 0 <= n < callbacks
      ensures g.region(TABLE_AT + 4 * n) == Globals && Read(c, TABLE_AT + 4 * n) == env.callbackTarget(n)
    {
      TargetStored(env, l, slots, callbacks, n);
    }
  }

  lemma {:induction false} StructStored(env: Env, l: Local, slots: nat, callbacks: nat)
    ensures Stored(env, l, slots, callbacks, STRUCT_AT + 16) == env.dataStart
    ensures Stored(env, l, slots, callbacks, STRUCT_AT + 40) == TABLE_AT
  {
  }

  lemma {:induction false} Quarter(n: int)
    ensures 4 * n / 4 == n
  {
  }

  lemma {:induction false} SlotStored(env: Env, l: Local, slots: nat, callbacks: nat, slot: int)
    requires slot in l.w.slots && 0 <= slot < slots
    ensures Stored(env, l, slots, callbacks, SlotsAt(slots, callbacks) - 4 * slot) == l.w.slots[slot]
  {
    Quarter(slot);
    var a := SlotsAt(slots, callbacks) - 4 * slot;
    assert SlotsAt(slots, callbacks) - a == 4 * slot && a >= TABLE_AT + 4 * callbacks;
  }

  lemma {:induction false} TargetStored(env: Env, l: Local, slots: nat, callbacks: nat, n: nat)
    requires n < callbacks
    ensures Stored(env, l, slots, callbacks, TABLE_AT + 4 * n) == env.callbackTarget(n)
  {
    Quarter(n);
    assert TABLE_AT + 4 * n - TABLE_AT == 4 * n;
  }

  /** A write to one region leaves the others alone. */
  lemma {:induction false} WorldStays(g: Setting, env: Env, c: Core, c1: Core, w: World)
    requires WellSet(g) && HoldsWorld(g, env, c, w) && c1.esi == c.esi && c1.edi == c.edi && c1.edx == c.edx
    requires forall a :: g.region(a) == Slots || g.region(a) == Globals ==> Read(c1, a) == Read(c, a)
    ensures HoldsWorld(g, env, c1, w)
  {
    hide Read;
    forall slot | slot in w.slots ensures 0 <= slot < g.slots && Read(c1, g.edi - 4 * slot) == w.slots[slot] {
      assert g.region(g.edi - 4 * slot) == Slots;
    }
    var table := Read(c, g.esi + 40);
    assert Read(c1, g.esi + 40) == table;
    forall n | 0 <= n < g.callbacks
      ensures g.region(table + 4 * n) == Globals && Read(c1, table + 4 * n) == env.callbackTarget(n)
    {
    }
  }

  lemma {:induction false} CellsStay(g: Setting, c: Core, c1: Core, cells: seq<int>)
    requires WellSet(g) && HoldsCells(g, c, cells) && c1.esp == c.esp
    requires forall a :: a >= c.esp && g.region(a) == ReturnStack ==> Read(c1, a) == Read(c, a)
    ensures HoldsCells(g, c1, cells)
  {
    hide Read;
    forall i | 0 <= i < |cells| ensures Read(c1, c1.esp + 4 * (|cells| - 1 - i)) == cells[i] {
      assert g.region(c.esp + 4 * (|cells| - 1 - i)) == ReturnStack;
    }
  }

  lemma {:induction false} DataStays(g: Setting, c: Core, c1: Core, ds: seq<int>)
    requires WellSet(g) && HoldsData(g, c, ds) && c1.ebx == c.ebx && c1.eax == c.eax
    requires forall a :: g.region(a) == DataStack ==> Read(c1, a) == Read(c, a)
    ensures HoldsData(g, c1, ds)
  {
    hide Read;
    forall i | 0 <= i < |ds| - 1 ensures Read(c1, g.base + 4 * i + 8) == ds[i] {
      assert g.region(g.base + 4 * (i + 2)) == DataStack;
    }
  }

  lemma {:induction false} WriteIs(c: Core, a: int, x: int)
    ensures Read(Write(c, a, x), a) == x && forall b :: b != a ==> Read(Write(c, a, x), b) == Read(c, b)
    ensures Write(c, a, x).(mem := c.mem) == c
  {
  }

  // ----- pushing -----

  /** The chores and the new top. */
  lemma {:induction false} PushRepresents(g: Setting, c: Core, c1: Core, ds: seq<int>, x: int)
    requires WellSet(g) && HoldsData(g, c, ds) && |ds| < STACK_CELLS
    requires c1.ebx == c.ebx + 4 && c1.eax == x && Read(c1, c.ebx + 4) == c.eax
    requires forall a :: g.region(a) == DataStack && a != c.ebx + 4 ==> Read(c1, a) == Read(c, a)
    ensures HoldsData(g, c1, ds + [x])
  {
    hide Read;
    forall i | 0 <= i < |ds| ensures Read(c1, g.base + 4 * i + 8) == (ds + [x])[i] {
      assert g.region(g.base + 4 * (i + 2)) == DataStack || i == |ds| - 1;
    }
  }

  /** And the other way round. */
  lemma {:induction false} PopRepresents(g: Setting, c: Core, c1: Core, ds: seq<int>)
    requires WellSet(g) && HoldsData(g, c, ds) && ds != []
    requires c1.ebx == c.ebx - 4 && c1.eax == Read(c, c.ebx)
    requires forall a :: g.region(a) == DataStack ==> Read(c1, a) == Read(c, a)
    ensures HoldsData(g, c1, ds[..|ds| - 1])
  {
    hide Read;
    var low := ds[..|ds| - 1];
    if low != [] {
      assert Read(c, g.base + 4 * (|ds| - 2) + 8) == ds[|ds| - 2];
    }
    forall i | 0 <= i < |low| - 1 ensures Read(c1, g.base + 4 * i + 8) == low[i] {
      assert g.region(g.base + 4 * (i + 2)) == DataStack;
    }
  }

  /** Room was made, x is on top, and at most the cell below the return stack was used besides. */
  lemma {:induction false} PushedRepresents(g: Setting, env: Env, c: Core, c1: Core, l: Local, x: int)
    requires WellSet(g) && Represents(g, env, c, l) && |l.ds| < STACK_CELLS
    requires c1.ebx == c.ebx + 4 && c1.eax == x && c1.esp == c.esp && c1.esi == c.esi && c1.edi == c.edi
        && c1.edx == c.edx
    requires Read(c1, c.ebx + 4) == c.eax
    requires forall a :: a != c.ebx + 4 && (g.bottom <= c.esp - 4 ==> a != c.esp - 4) ==> Read(c1, a) == Read(c, a)
    ensures Represents(g, env, c1, l.(ds := l.ds + [x]))
  {
    hide Read, HoldsData, HoldsWorld, HoldsCells;
    StackPlaces(g, c, l);
    PushRepresents(g, c, c1, l.ds, x);
    CellsStay(g, c, c1, l.cells);
    WorldStays(g, env, c, c1, l.w);
  }

  /** Which regions ebx and esp are in. */
  lemma {:induction false} StackPlaces(g: Setting, c: Core, l: Local)
    requires WellSet(g) && HoldsData(g, c, l.ds) && HoldsCells(g, c, l.cells)
    ensures |l.ds| < STACK_CELLS ==> g.region(c.ebx + 4) == DataStack
    ensures g.region(c.ebx) == DataStack && (l.ds != [] ==> g.region(c.ebx - 4) == DataStack)
    ensures forall a :: g.bottom <= a < c.esp ==> g.region(a) == ReturnStack
    ensures forall i :: 0 <= i < |l.cells| ==> g.region(c.esp + 4 * i) == ReturnStack
  {
    hide Read;
    assert c.ebx == g.base + 4 * |l.ds| && c.ebx + 4 == g.base + 4 * (|l.ds| + 1);
    if l.ds != [] { assert c.ebx - 4 == g.base + 4 * (|l.ds| - 1); }
  }

  /** Pushing moves at most registers of the data stack; the flags of the processor mean nothing. */
  lemma {:induction false} FlagsDoNotMatter(g: Setting, env: Env, c: Core, c1: Core, l: Local)
    requires Represents(g, env, c, l) && c1.(flags := None) == c.(flags := None)
    ensures Represents(g, env, c1, l)
  {
    hide Read;
    MemoryOnly(c, c1);
  }

  lemma {:induction false} RoomIs(c: Core)
    ensures var room := Pushed(c, c.eax);
      && room.ebx == c.ebx + 4 && room.(mem := c.mem, ebx := c.ebx) == c
      && Read(room, c.ebx + 4) == c.eax && forall a :: a != c.ebx + 4 ==> Read(room, a) == Read(c, a)
  {
  }

  /** What a fragment pushes is what it pushes in the source. */
  lemma {:induction false} ValueMeans(g: Setting, env: Env, f: Fragment, offset: int, at: int, c: Core, room: Core,
      l: Local)
    requires WellSet(g) && Represents(g, env, c, l) && |l.ds| < STACK_CELLS && room.esi == c.esi && room.edi == c.edi
    requires forall a :: a != c.ebx + 4 ==> Read(room, a) == Read(c, a)
    requires f.op in {PushLiteral, PushDataAddress, UseVariableOrConstant, PushCallback}
    requires f.op == UseVariableOrConstant ==> f.param in l.w.slots
    requires f.op == PushCallback ==> 0 <= f.param < g.callbacks
    ensures Exec(env, f.op, f.param, 0, l) == Fine(l.(ds := l.ds + [Value(f, offset, at, room)]))
  {
    hide Read, HoldsData, HoldsCells, HoldsWorld, IsInt32, WellSet, Wrap, Represents;
    RoomIsApart(g, env, c, l, f.param);
  }

  /** What is read in the world is read elsewhere than in the new cell. */
  lemma {:induction false} RoomIsApart(g: Setting, env: Env, c: Core, l: Local, n: int)
    requires WellSet(g) && Represents(g, env, c, l) && |l.ds| < STACK_CELLS
    ensures c.esi + 16 != c.ebx + 4 && Read(c, c.esi + 16) == env.dataStart && c.esi + 40 != c.ebx + 4
    ensures n in l.w.slots ==> c.edi - 4 * n != c.ebx + 4 && Read(c, c.edi - 4 * n) == l.w.slots[n]
    ensures var a := Read(c, c.esi + 40) + 4 * n;
      0 <= n < g.callbacks ==> a != c.ebx + 4 && Read(c, a) == env.callbackTarget(n)
  {
    hide Read, HoldsData, HoldsCells, HoldsWorld, WellSet;
    StackPlaces(g, c, l);
    GlobalPlaces(g);
    WorldValues(g, env, c, l.w, n);
    if n in l.w.slots { SlotPlace(g, n); }
  }

  lemma {:induction false} WorldValues(g: Setting, env: Env, c: Core, w: World, n: int)
    requires HoldsWorld(g, env, c, w)
    ensures c.esi == g.esi && c.edi == g.edi && Read(c, g.esi + 16) == env.dataStart
    ensures n in w.slots ==> 0 <= n < g.slots && Read(c, g.edi - 4 * n) == w.slots[n]
    ensures 0 <= n < g.callbacks ==>
      g.region(Read(c, g.esi + 40) + 4 * n) == Globals && Read(c, Read(c, g.esi + 40) + 4 * n) == env.callbackTarget(n)
  {
    hide Read;
  }

  /** A literal, a data address, a variable or constant and a callback: the x86 code does what the
      fragment means. */
  lemma {:induction false} PushMeans(g: Setting, env: Env, t: Tables, f: Fragment, framed: bool, relaxation: nat,
      offset: int, at: int, c: Core, l: Local)
    requires ChoresAre(t) && Writable(f, relaxation, offset)
    requires WellSet(g) && Represents(g, env, c, l) && |l.ds| < STACK_CELLS
    requires f.op in {PushLiteral, PushDataAddress, UseVariableOrConstant, PushCallback}
    requires f.op == UseVariableOrConstant ==> f.param in l.w.slots
    requires f.op == PushCallback ==> 0 <= f.param < g.callbacks
    ensures var r, e := Through(FullCode(t, f, framed, relaxation, offset), at, c), Exec(env, f.op, f.param, 0, l);
      r.On? && e.Fine? && Represents(g, env, r.c, e.l)
  {
    hide Through, FullCode, Read, HoldsData, HoldsWorld, HoldsCells, Writable, Value, Pushed, ChoresAre, Exec,
        Represents, WellSet, IsInt32;
    var room := Pushed(c, c.eax);
    RoomIs(c);
    PushFragment(t, f, framed, relaxation, offset, at, c);
    ValueMeans(g, env, f, offset, at + 5, c, room, l);
    var x := Value(f, offset, at + 5, room);
    var c1 := room.(eax := x);
    MemoryOnly(room, c1);
    PushedRepresents(g, env, c, c1, l, x);
    FlagsDoNotMatter(g, env, c1, Through(FullCode(t, f, framed, relaxation, offset), at, c).c, l.(ds := l.ds + [x]));
  }

  /** `' word` pushes the address that its displacement reaches. */
  lemma {:induction false} AddressMeans(g: Setting, env: Env, t: Tables, f: Fragment, framed: bool, relaxation: nat,
      offset: int, at: int, c: Core, l: Local)
    requires ChoresAre(t) && f.op == PushOffsetAddress && Writable(f, relaxation, offset) && g.bottom <= c.esp - 4
    requires WellSet(g) && Represents(g, env, c, l) && |l.ds| < STACK_CELLS
    ensures var r := Through(FullCode(t, f, framed, relaxation, offset), at, c);
      r.On? && Push(l, at + 10 + offset).Fine? && Represents(g, env, r.c, Push(l, at + 10 + offset).l)
  {
    hide Through, FullCode, Read, HoldsData, HoldsWorld, HoldsCells, Writable, Pushed, ChoresAre, Represents, WellSet,
        UsedBelow;
    var room := Pushed(c, c.eax);
    RoomIs(c);
    PushFragment(t, f, framed, relaxation, offset, at, c);
    UsedIs(g, env, c, room, l, at + 10);
    var x := at + 10 + offset;
    var c1 := UsedBelow(room, at + 10).(eax := x);
    MemoryOnly(UsedBelow(room, at + 10), c1);
    PushedRepresents(g, env, c, c1, l, x);
    FlagsDoNotMatter(g, env, c1, Through(FullCode(t, f, framed, relaxation, offset), at, c).c, l.(ds := l.ds + [x]));
  }

  lemma {:induction false} UsedIs(g: Setting, env: Env, c: Core, room: Core, l: Local, x: int)
    requires WellSet(g) && Represents(g, env, c, l) && |l.ds| < STACK_CELLS && g.bottom <= c.esp - 4
    requires room.esp == c.esp
    ensures var used := UsedBelow(room, x);
      && used.(mem := room.mem) == room && Read(used, c.ebx + 4) == Read(room, c.ebx + 4)
      && forall a :: a != c.esp - 4 ==> Read(used, a) == Read(room, a)
  {
    hide HoldsData, HoldsCells, HoldsWorld, WellSet;
    StackPlaces(g, c, l);
    WriteIs(room, room.esp - 4, x);
  }

  lemma {:induction false} MemoryOnly(c: Core, c1: Core)
    requires c1.mem == c.mem
    ensures forall a :: Read(c1, a) == Read(c, a)
  {
  }

  // ----- declarations -----

  /** A slot gets a value, and no other part of the world changes. */
  lemma {:induction false} SlotWritten(g: Setting, env: Env, c: Core, c1: Core, w: World, slot: int, x: int, here: int)
    requires WellSet(g) && HoldsWorld(g, env, c, w) && c1.esi == c.esi && c1.edi == c.edi && c1.edx == here
    requires 0 <= slot < g.slots
    requires Read(c1, g.edi - 4 * slot) == x
    requires forall a :: (g.region(a) == Slots || g.region(a) == Globals) && a != g.edi - 4 * slot ==>
      Read(c1, a) == Read(c, a)
    ensures HoldsWorld(g, env, c1, w.(here := here, slots := w.slots[slot := x]))
  {
    hide Read, WellSet;
    forall s | s in w.slots[slot := x]
      ensures 0 <= s < g.slots && Read(c1, g.edi - 4 * s) == w.slots[slot := x][s]
    {
      SlotPlace(g, s);
    }
    GlobalPlaces(g);
    SlotPlace(g, slot);
    assert Read(c1, g.esi + 16) == Read(c, g.esi + 16);
    TableStays(g, env, c, c1, g.edi - 4 * slot);
  }

  lemma {:induction false} GlobalPlaces(g: Setting)
    requires WellSet(g)
    ensures g.region(g.esi + 16) == Globals && g.region(g.esi + 40) == Globals
  {
  }

  lemma {:induction false} TableStays(g: Setting, env: Env, c: Core, c1: Core, but: int)
    requires g.region(g.esi + 40) == Globals && g.region(but) == Slots
    requires forall n :: 0 <= n < g.callbacks ==>
      g.region(Read(c, g.esi + 40) + 4 * n) == Globals && Read(c, Read(c, g.esi + 40) + 4 * n) == env.callbackTarget(n)
    requires forall a :: g.region(a) == Globals && a != but ==> Read(c1, a) == Read(c, a)
    ensures Read(c1, g.esi + 40) == Read(c, g.esi + 40)
    ensures forall n :: 0 <= n < g.callbacks ==> Read(c1, Read(c1, g.esi + 40) + 4 * n) == env.callbackTarget(n)
  {
    hide Read;
    var table := Read(c, g.esi + 40);
    forall n | 0 <= n < g.callbacks ensures Read(c1, table + 4 * n) == env.callbackTarget(n) {
      assert g.region(table + 4 * n) == Globals;
    }
  }

  /** A constant takes the top off the stack and keeps it in its slot. */
  lemma {:induction false} ConstantMeans(g: Setting, env: Env, t: Tables, f: Fragment, framed: bool, relaxation: nat,
      offset: int, at: int, c: Core, l: Local)
    requires ChoresAre(t) && f.op == DeclareConstant && IsInt32(-4 * f.param)
    requires WellSet(g) && Represents(g, env, c, l) && l.ds != [] && 0 <= f.param < g.slots
    ensures var r, e := Through(FullCode(t, f, framed, relaxation, offset), at, c), Exec(env, f.op, f.param, 0, l);
      r.On? && e.Fine? && Represents(g, env, r.c, e.l)
  {
    hide Through, FullCode, Read, HoldsData, HoldsCells, HoldsWorld, ChoresAre, Write, WellSet;
    ConstantFragment(t, f, framed, relaxation, offset, at, c);
    var a := c.edi - 4 * f.param;
    var c1 := Write(c, a, c.eax);
    WriteIs(c, a, c.eax);
    var c2 := c1.(eax := Read(c1, c.ebx), ebx := c.ebx - 4);
    MemoryOnly(c1, c2);
    TopIs(g, c, l.ds);
    BelowIsNoSlot(g, c, l, f.param);
    WorldValues(g, env, c, l.w, f.param);
    ConstantHeld(g, env, c, c2, l, f.param);
    FlagsDoNotMatter(g, env, c2, Through(FullCode(t, f, framed, relaxation, offset), at, c).c,
        Exec(env, f.op, f.param, 0, l).l);
  }

  lemma {:induction false} BelowIsNoSlot(g: Setting, c: Core, l: Local, slot: int)
    requires WellSet(g) && HoldsData(g, c, l.ds) && HoldsCells(g, c, l.cells) && 0 <= slot < g.slots
    ensures c.ebx != g.edi - 4 * slot
  {
    hide HoldsData, HoldsCells, WellSet;
    StackPlaces(g, c, l);
    SlotPlace(g, slot);
  }

  lemma {:induction false} TopIs(g: Setting, c: Core, ds: seq<int>)
    requires HoldsData(g, c, ds) && ds != []
    ensures c.eax == ds[|ds| - 1]
  {
    hide Read;
  }

  lemma {:induction false} ConstantHeld(g: Setting, env: Env, c: Core, c2: Core, l: Local, slot: int)
    requires WellSet(g) && Represents(g, env, c, l) && l.ds != [] && 0 <= slot < g.slots
    requires c2.ebx == c.ebx - 4 && c2.eax == Read(c, c.ebx) && c2.esp == c.esp && c2.esi == c.esi && c2.edi == c.edi
        && c2.edx == c.edx
    requires Read(c2, c.edi - 4 * slot) == c.eax && forall a :: a != c.edi - 4 * slot ==> Read(c2, a) == Read(c, a)
    ensures Represents(g, env, c2,
        Local(l.ds[..|l.ds| - 1], l.cells, l.w.(slots := l.w.slots[slot := c.eax])))
  {
    hide Read, HoldsData, HoldsCells;
    SlotPlace(g, slot);
    assert c.edi == g.edi;
    PopRepresents(g, c, c2, l.ds);
    CellsStay(g, c, c2, l.cells);
    SlotWritten(g, env, c, c2, l.w, slot, c.eax, l.w.here);
  }

  lemma {:induction false} SlotPlace(g: Setting, slot: int)
    requires WellSet(g) && 0 <= slot < g.slots
    ensures g.region(g.edi - 4 * slot) == Slots
  {
  }

  /** A variable takes the next aligned cell of the data space; the code does not look whether there is
      one. */
  lemma {:induction false} VariableMeans(g: Setting, env: Env, t: Tables, f: Fragment, framed: bool, relaxation: nat,
      offset: int, at: int, c: Core, l: Local)
    requires f.op == DeclareVariable && IsInt32(-4 * f.param)
    requires WellSet(g) && Represents(g, env, c, l) && Exec(env, f.op, f.param, 0, l).Fine? && 0 <= f.param < g.slots
    ensures var r, e := Through(FullCode(t, f, framed, relaxation, offset), at, c), Exec(env, f.op, f.param, 0, l);
      r.On? && Represents(g, env, r.c, e.l)
  {
    hide Through, FullCode, Read, HoldsData, HoldsCells, Write, WellSet;
    VariableFragment(t, f, framed, relaxation, offset, at, c);
    var cell := (c.edx + 3) / 4 * 4;
    var a := c.edi - 4 * f.param;
    var c1 := Write(c, a, cell);
    WriteIs(c, a, cell);
    var c2 := c1.(edx := cell + 4);
    MemoryOnly(c1, c2);
    VariableHeld(g, env, c, c2, l, f.param, cell);
    FlagsDoNotMatter(g, env, c2, Through(FullCode(t, f, framed, relaxation, offset), at, c).c,
        Exec(env, f.op, f.param, 0, l).l);
  }

  lemma {:induction false} VariableHeld(g: Setting, env: Env, c: Core, c2: Core, l: Local, slot: int, cell: int)
    requires WellSet(g) && Represents(g, env, c, l) && 0 <= slot < g.slots
    requires c2.ebx == c.ebx && c2.eax == c.eax && c2.esp == c.esp && c2.esi == c.esi && c2.edi == c.edi
        && c2.edx == cell + 4
    requires Read(c2, c.edi - 4 * slot) == cell && forall a :: a != c.edi - 4 * slot ==> Read(c2, a) == Read(c, a)
    ensures Represents(g, env, c2, l.(w := l.w.(here := cell + 4, slots := l.w.slots[slot := cell])))
  {
    hide Read, HoldsData, HoldsCells;
    SlotPlace(g, slot);
    assert c.edi == g.edi;
    DataStays(g, c, c2, l.ds);
    CellsStay(g, c, c2, l.cells);
    SlotWritten(g, env, c, c2, l.w, slot, cell, cell + 4);
  }

  // ----- branches -----

  lemma {:induction false} PoppedRepresents(g: Setting, env: Env, c: Core, l: Local)
    requires WellSet(g) && Represents(g, env, c, l) && l.ds != []
    ensures Drop(l).Fine? && Represents(g, env, Popped(c), Drop(l).l) && c.eax == TopOf(l.ds)
  {
    hide Read, HoldsData, HoldsCells, HoldsWorld, WellSet;
    var c1 := Popped(c);
    MemoryOnly(c, c1);
    TopIs(g, c, l.ds);
    PopRepresents(g, c, c1, l.ds);
    CellsStay(g, c, c1, l.cells);
    WorldStays(g, env, c, c1, l.w);
  }

  /** `if`, `until` and `while` take the flag off the stack and branch when it is zero. */
  lemma {:induction false} BranchMeans(g: Setting, env: Env, t: Tables, f: Fragment, framed: bool, relaxation: nat,
      offset: int, at: int, c: Core, l: Local)
    requires f.op == BranchIfZero && IsInt32(offset) && IsRepresentable(f, relaxation, offset)
    requires WellSet(g) && Represents(g, env, c, l) && l.ds != []
    requires var s := FullCode(t, f, framed, relaxation, offset); Outside(at + |s| + offset, at, s)
    ensures var s := FullCode(t, f, framed, relaxation, offset);
      var r := Through(s, at, c);
      if TopOf(l.ds) == 0 then r.Goes? && r.a == at + |s| + offset && Represents(g, env, r.c, Drop(l).l)
      else r.On? && Represents(g, env, r.c, Drop(l).l)
  {
    hide Through, FullCode, Read, Represents, WellSet, Popped, IsRepresentable, Outside;
    BranchIfZeroFragment(t, f, framed, relaxation, offset, at, c);
    PoppedRepresents(g, env, c, l);
    FlagsDoNotMatter(g, env, Popped(c), Through(FullCode(t, f, framed, relaxation, offset), at, c).c, Drop(l).l);
  }

  // ----- do-loops -----

  /** A cell more on the return stack. */
  lemma {:induction false} CellPushed(g: Setting, c: Core, c1: Core, cells: seq<int>, x: int)
    requires HoldsCells(g, c, cells) && c1.esp == c.esp - 4 && g.bottom <= c1.esp
    requires Read(c1, c.esp - 4) == x
    requires forall a :: a >= c.esp && g.region(a) == ReturnStack ==> Read(c1, a) == Read(c, a)
    requires WellSet(g)
    ensures HoldsCells(g, c1, cells + [x])
  {
    hide Read;
    var all := cells + [x];
    forall i | 0 <= i < |all| ensures Read(c1, c1.esp + 4 * (|all| - 1 - i)) == all[i] {
      if i < |cells| {
        assert c1.esp + 4 * (|all| - 1 - i) == c.esp + 4 * (|cells| - 1 - i);
        assert g.region(c.esp + 4 * (|cells| - 1 - i)) == ReturnStack;
      }
    }
  }

  /** Two numbers off the data stack and onto the return stack. */
  lemma {:induction false} TwoMoved(g: Setting, env: Env, c: Core, c1: Core, l: Local, x: int, y: int)
    requires WellSet(g) && Represents(g, env, c, l) && |l.ds| >= 2 && x == Read(c, c.ebx) && y == c.eax
    requires c1 == PushOn(PushOn(c, x), y) && g.bottom <= c.esp - 8
    ensures x == l.ds[|l.ds| - 2] && y == l.ds[|l.ds| - 1]
    ensures Represents(g, env, c1.(eax := Read(c1, c.ebx - 4), ebx := c.ebx - 8),
        Local(l.ds[..|l.ds| - 2], l.cells + [x] + [y], l.w))
  {
    hide Read, HoldsData, HoldsCells, HoldsWorld, WellSet, PushOn;
    TwoPushes(c, x, y);
    StackPlaces(g, c, l);
    TwoTops(g, c, l.ds);
    var mid := PushOn(c, x);
    CellPushed(g, c, mid, l.cells, x);
    CellPushed(g, mid, c1, l.cells + [x], y);
    var c2 := c1.(eax := Read(c1, c.ebx - 4), ebx := c.ebx - 8);
    MemoryOnly(c1, c2);
    HoldsLower(g, c, c2, l.ds);
    WorldStays(g, env, c, c2, l.w);
    CellsStay(g, c1, c2, l.cells + [x] + [y]);
  }

  lemma {:induction false} TwoPushes(c: Core, x: int, y: int)
    ensures var mid := PushOn(c, x);
      var c1 := PushOn(mid, y);
      && mid.esp == c.esp - 4 && c1.esp == c.esp - 8
      && c1.(mem := c.mem, esp := c.esp) == c && mid.(mem := c.mem, esp := c.esp) == c
      && Read(mid, c.esp - 4) == x && (forall a :: a != c.esp - 4 ==> Read(mid, a) == Read(c, a))
      && Read(c1, c.esp - 8) == y && (forall a :: a != c.esp - 8 ==> Read(c1, a) == Read(mid, a))
  {
  }

  lemma {:induction false} TwoTops(g: Setting, c: Core, ds: seq<int>)
    requires HoldsData(g, c, ds) && |ds| >= 2
    ensures Read(c, c.ebx) == ds[|ds| - 2] && c.eax == ds[|ds| - 1]
    ensures |ds| >= 3 ==> Read(c, c.ebx - 4) == ds[|ds| - 3]
  {
    hide Read;
    assert c.ebx == g.base + 4 * (|ds| - 2) + 8;
  }

  lemma {:induction false} HoldsLower(g: Setting, c: Core, c2: Core, ds: seq<int>)
    requires WellSet(g) && HoldsData(g, c, ds) && |ds| >= 2
    requires c2.ebx == c.ebx - 8 && c2.eax == Read(c, c.ebx - 4)
    requires forall a :: g.region(a) == DataStack ==> Read(c2, a) == Read(c, a)
    ensures HoldsData(g, c2, ds[..|ds| - 2])
  {
    hide Read;
    TwoTops(g, c, ds);
    forall i | 0 <= i < |ds| - 3 ensures Read(c2, g.base + 4 * i + 8) == ds[i] {
      assert g.region(g.base + 4 * (i + 2)) == DataStack;
    }
  }

  /** `do` moves the limit and the start to the return stack. */
  lemma {:induction false} DoMeans(g: Setting, env: Env, t: Tables, f: Fragment, framed: bool, relaxation: nat,
      offset: int, at: int, c: Core, l: Local, depth: nat)
    requires f.op == Do
    requires WellSet(g) && Represents(g, env, c, l) && TwoToReturn(depth, l).Fine? && g.bottom <= c.esp - 8
    ensures var r := Through(FullCode(t, f, framed, relaxation, offset), at, c);
      r.On? && Represents(g, env, r.c, TwoToReturn(depth, l).l)
  {
    hide Through, FullCode, Read, Represents, WellSet, PushOn;
    DoFragment(t, f, framed, relaxation, offset, at, c);
    var x, y := Read(c, c.ebx), c.eax;
    var c1 := PushOn(PushOn(c, x), y);
    TwoMoved(g, env, c, c1, l, x, y);
    var c2 := c1.(eax := Read(c1, c.ebx - 4), ebx := c.ebx - 8);
    DoResult(depth, l);
    FlagsDoNotMatter(g, env, c2, Through(FullCode(t, f, framed, relaxation, offset), at, c).c, TwoToReturn(depth, l).l);
  }

  lemma {:induction false} DoResult(depth: nat, l: Local)
    requires TwoToReturn(depth, l).Fine?
    ensures |l.ds| >= 2
    ensures TwoToReturn(depth, l).l
         == Local(l.ds[..|l.ds| - 2], l.cells + [l.ds[|l.ds| - 2]] + [l.ds[|l.ds| - 1]], l.w)
  {
    if |l.ds| >= 2 { assert l.ds[..|l.ds| - 1][..|l.ds| - 2] == l.ds[..|l.ds| - 2]; }
  }

  lemma {:induction false} LoopResult(depth: nat, l: Local)
    requires |l.cells| >= 2
    ensures var n := |l.cells|;
      var index, limit := Wrap(l.cells[n - 1] + 1), l.cells[n - 2];
      TestLoop(depth, l) == if index < limit then (Fine(l.(cells := l.cells[..n - 1] + [index])), true)
        else (Fine(l.(cells := l.cells[..n - 2])), false)
  {
    hide Wrap;
    var n := |l.cells|;
    assert l.cells[..n - 1][..n - 2] == l.cells[..n - 2];
    assert l.cells[..n - 2] + [l.cells[n - 2]] == l.cells[..n - 1];
    var index := Wrap(l.cells[n - 1] + 1);
    assert l.cells[..n - 2] + [l.cells[n - 2], index] == l.cells[..n - 1] + [index];
  }

  lemma {:induction false} LastCells(g: Setting, c: Core, cells: seq<int>)
    requires HoldsCells(g, c, cells) && |cells| >= 2
    ensures Read(c, c.esp) == cells[|cells| - 1] && Read(c, c.esp + 4) == cells[|cells| - 2]
  {
    hide Read;
    assert c.esp + 4 * (|cells| - 1 - (|cells| - 1)) == c.esp;
    assert c.esp + 4 * (|cells| - 1 - (|cells| - 2)) == c.esp + 4;
  }

  /** The last cell changes, or the last two go. */
  lemma {:induction false} LastChanged(g: Setting, c: Core, c1: Core, cells: seq<int>, x: int)
    requires WellSet(g) && HoldsCells(g, c, cells) && cells != [] && c1.esp == c.esp && Read(c1, c.esp) == x
    requires forall a :: a != c.esp ==> Read(c1, a) == Read(c, a)
    ensures HoldsCells(g, c1, cells[..|cells| - 1] + [x])
  {
    hide Read;
    var all := cells[..|cells| - 1] + [x];
    forall i | 0 <= i < |all| ensures Read(c1, c1.esp + 4 * (|all| - 1 - i)) == all[i] {
      assert Read(c, c.esp + 4 * (|cells| - 1 - i)) == cells[i];
    }
  }

  lemma {:induction false} TwoGone(g: Setting, c: Core, c1: Core, cells: seq<int>)
    requires WellSet(g) && HoldsCells(g, c, cells) && |cells| >= 2 && c1.esp == c.esp + 8
    requires forall a :: a != c.esp ==> Read(c1, a) == Read(c, a)
    ensures HoldsCells(g, c1, cells[..|cells| - 2])
  {
    hide Read;
    var low := cells[..|cells| - 2];
    forall i | 0 <= i < |low| ensures Read(c1, c1.esp + 4 * (|low| - 1 - i)) == low[i] {
      assert c1.esp + 4 * (|low| - 1 - i) == c.esp + 4 * (|cells| - 1 - i);
      assert Read(c, c.esp + 4 * (|cells| - 1 - i)) == cells[i];
    }
  }

  lemma {:induction false} CountedRepresents(g: Setting, env: Env, c: Core, l: Local)
    requires WellSet(g) && Represents(g, env, c, l) && |l.cells| >= 2
    ensures var n, c1 := |l.cells|, Counted(c);
      && Represents(g, env, c1, l.(cells := l.cells[..n - 1] + [Wrap(l.cells[n - 1] + 1)]))
      && Represents(g, env, c1.(esp := c.esp + 8), l.(cells := l.cells[..n - 2]))
  {
    hide Read, HoldsData, HoldsCells, HoldsWorld, WellSet, Wrap;
    var c1 := Counted(c);
    CountedKeeps(c);
    CountedElse(c);
    LastCells(g, c, l.cells);
    StackPlaces(g, c, l);
    EspIsReturn(g, c, l);
    DataStays(g, c, c1, l.ds);
    WorldStays(g, env, c, c1, l.w);
    LastChanged(g, c, c1, l.cells, Wrap(l.cells[|l.cells| - 1] + 1));
    var c2 := c1.(esp := c.esp + 8);
    MemoryOnly(c1, c2);
    DataStays(g, c, c2, l.ds);
    WorldStays(g, env, c, c2, l.w);
    TwoGone(g, c, c2, l.cells);
  }

  lemma {:induction false} EspIsReturn(g: Setting, c: Core, l: Local)
    requires WellSet(g) && HoldsCells(g, c, l.cells) && l.cells != []
    ensures g.region(c.esp) == ReturnStack
  {
    hide Read;
  }

  lemma {:induction false} CountedElse(c: Core)
    ensures Counted(c).(mem := c.mem, ecx := c.ecx) == c
  {
    hide Wrap;
  }

  /** `loop` counts up with 32-bit wrap-around, goes back while below the limit, and takes its two cells
      off at the end. */
  lemma {:induction false} LoopMeans(g: Setting, env: Env, t: Tables, f: Fragment, framed: bool, relaxation: nat,
      offset: int, at: int, c: Core, l: Local, depth: nat)
    requires f.op == Loop && IsInt32(offset) && IsRepresentable(f, relaxation, offset)
    requires WellSet(g) && Represents(g, env, c, l) && |l.cells| >= 2
    requires var s := FullCode(t, f, framed, relaxation, offset); Outside(at + |s| - 3 + offset, at, s)
    ensures var s := FullCode(t, f, framed, relaxation, offset);
      var (e, again) := TestLoop(depth, l);
      var r := Through(s, at, c);
      && e.Fine?
      && (if again then r.Goes? && r.a == at + |s| - 3 + offset && Represents(g, env, r.c, e.l)
          else r.On? && Represents(g, env, r.c, e.l))
  {
    hide Through, FullCode, Read, Represents, WellSet, Counted, IsRepresentable, Outside, Wrap, TestLoop;
    LoopFragment(t, f, framed, relaxation, offset, at, c);
    CountedRepresents(g, env, c, l);
    CellsOf(g, env, c, l);
    LastCells(g, c, l.cells);
    LoopResult(depth, l);
    var r, c1 := Through(FullCode(t, f, framed, relaxation, offset), at, c), Counted(c);
    var n := |l.cells|;
    if Wrap(l.cells[n - 1] + 1) < l.cells[n - 2] {
      FlagsDoNotMatter(g, env, c1, r.c, l.(cells := l.cells[..n - 1] + [Wrap(l.cells[n - 1] + 1)]));
    } else {
      FlagsDoNotMatter(g, env, c1.(esp := c.esp + 8), r.c, l.(cells := l.cells[..n - 2]));
    }
  }

  lemma {:induction false} CellsOf(g: Setting, env: Env, c: Core, l: Local)
    requires Represents(g, env, c, l)
    ensures HoldsCells(g, c, l.cells)
  {
    hide HoldsData, HoldsWorld, HoldsCells;
  }
}
