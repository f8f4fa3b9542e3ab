/**
 The memories behind the Modbus/TCP server: pointer tables glued to typed cells, and the flat
 map from register addresses to 16-bit words that reads and writes present over them.

 A C pointer is modelled as an index into the store of the cells of its type, so that two
 table entries may alias. The Modbus arrays are fixed parts of the stores.
 */
module RegisterFile {
  import opened Bytes

  const BUFFER_SIZE: nat := 1024
  const MAX_DISCRETE_INPUT: nat := 8192
  const MAX_COILS: nat := 8192
  const MAX_INP_REGS: nat := 1024
  const MIN_16B_RANGE: nat := 1024
  const MAX_16B_RANGE: nat := 2047
  const MIN_32B_RANGE: nat := 2048
  const MAX_32B_RANGE: nat := 4095
  const MIN_64B_RANGE: nat := 4096
  const MAX_64B_RANGE: nat := 8191

  // Where the Modbus arrays lie in the stores: mb_holding_regs and mb_input_regs among the
  // words, mb_discrete_input and mb_coils among the bools.
  const HOLDING_REGS: nat := 0
  const INPUT_REGS: nat := 8192
  const DISCRETE_INPUTS: nat := 0
  const COILS: nat := 8192
  const MODBUS_WORDS: nat := 9216
  const MODBUS_BOOLS: nat := 16384

  datatype Pointer = Null | To(cell: nat)

  /** bool_input and bool_output are listed by Modbus position, eight to an index.
      afterIntOutput is what the program reads as int_output[1024], one past the table. */
  datatype Tables = Tables(
    boolInput: seq<Pointer>,
    boolOutput: seq<Pointer>,
    intInput: seq<Pointer>,
    intOutput: seq<Pointer>,
    afterIntOutput: Pointer,
    intMemory: seq<Pointer>,
    dintMemory: seq<Pointer>,
    lintMemory: seq<Pointer>)

  datatype Store = Store(bools: seq<bv8>, words: seq<bv16>, dwords: seq<bv32>, lwords: seq<bv64>)

  predicate PointsInto(table: seq<Pointer>, cells: nat) {
    forall i :: 0 <= i < |table| && table[i].To? ==> table[i].cell < cells
  }

  predicate TableShape(t: Tables) {
    && |t.boolInput| == |t.boolOutput| == 8 * BUFFER_SIZE
    && |t.intInput| == |t.intOutput| == |t.intMemory| == BUFFER_SIZE
    && |t.dintMemory| == |t.lintMemory| == BUFFER_SIZE
  }

  /** Every pointer leads to a cell when the stores have these sizes. */
  predicate Fits(t: Tables, bools: nat, words: nat, dwords: nat, lwords: nat) {
    && TableShape(t)
    && PointsInto(t.boolInput, bools) && PointsInto(t.boolOutput, bools)
    && PointsInto(t.intInput, words) && PointsInto(t.intOutput, words) && PointsInto(t.intMemory, words)
    && (t.afterIntOutput.To? ==> t.afterIntOutput.cell < words)
    && PointsInto(t.dintMemory, dwords) && PointsInto(t.lintMemory, lwords)
    && words >= MODBUS_WORDS && bools >= MODBUS_BOOLS
  }

  predicate Valid(t: Tables, s: Store) {
    Fits(t, |s.bools|, |s.words|, |s.dwords|, |s.lwords|)
  }

  predicate SameShape(s: Store, s': Store) {
    |s.bools| == |s'.bools| && |s.words| == |s'.words| && |s.dwords| == |s'.dwords| && |s.lwords| == |s'.lwords|
  }

  // --------------------------------------------------------------------------
  // Places: what a register address denotes
  // --------------------------------------------------------------------------

  /** A 16-bit word of memory: a cell of its own, or one word of a wider cell */
  datatype Place = Nowhere | Word(cell: nat) | Half(cell: nat, k: nat) | Quarter(cell: nat, k: nat)

  function WordAt(p: Pointer): Place {
    match p
    case Null => Nowhere
    case To(c) => Word(c)
  }

  function PlaceOf(t: Tables, position: nat): Place
    requires TableShape(t) && position <= MAX_64B_RANGE
  {
    if position <= MIN_16B_RANGE then
      WordAt(if position < BUFFER_SIZE then t.intOutput[position] else t.afterIntOutput)
    else if position <= MAX_16B_RANGE then
      WordAt(t.intMemory[position - MIN_16B_RANGE])
    else if position <= MAX_32B_RANGE then
      match t.dintMemory[(position - MIN_32B_RANGE) / 2]
      case Null => Word(HOLDING_REGS + position)
      case To(c) => Half(c, (position - MIN_32B_RANGE) % 2)
    else
      match t.lintMemory[(position - MIN_64B_RANGE) / 4]
      case Null => Word(HOLDING_REGS + position)
      case To(c) => Quarter(c, (position - MIN_64B_RANGE) % 4)
  }

  /** An address in the wide ranges with no cell glued to it: served from mb_holding_regs */
  predicate Unglued(t: Tables, position: nat)
    requires TableShape(t) && position <= MAX_64B_RANGE
  {
    || (MIN_32B_RANGE <= position <= MAX_32B_RANGE && t.dintMemory[(position - MIN_32B_RANGE) / 2] == Null)
    || (MIN_64B_RANGE <= position && t.lintMemory[(position - MIN_64B_RANGE) / 4] == Null)
  }

  predicate PlaceIn(pl: Place, s: Store) {
    match pl
    case Nowhere => true
    case Word(c) => c < |s.words|
    case Half(c, k) => c < |s.dwords| && k < 2
    case Quarter(c, k) => c < |s.lwords| && k < 4
  }

  lemma PlaceValid(t: Tables, s: Store, position: nat)
    requires Valid(t, s) && position <= MAX_64B_RANGE
    ensures PlaceIn(PlaceOf(t, position), s)
  {
  }

  function Peek(s: Store, pl: Place): bv16
    requires PlaceIn(pl, s)
  {
    match pl
    case Nowhere => 0
    case Word(c) => s.words[c]
    case Half(c, k) => Word32(s.dwords[c], k)
    case Quarter(c, k) => Word64(s.lwords[c], k)
  }

  function Poke(s: Store, pl: Place, v: bv16): (s': Store)
    requires PlaceIn(pl, s)
    ensures SameShape(s, s') && s'.bools == s.bools
  {
    match pl
    case Nowhere => s
    case Word(c) => s.(words := s.words[c := v])
    case Half(c, k) => s.(dwords := s.dwords[c := Overwrite32(s.dwords[c], (1 - k) * 16, v)])
    case Quarter(c, k) => s.(lwords := s.lwords[c := Overwrite64(s.lwords[c], (3 - k) * 16, v)])
  }

  lemma PeekPokeHalf(s: Store, c: nat, k: nat, v: bv16, q: Place)
    requires PlaceIn(Half(c, k), s) && PlaceIn(q, s)
    ensures Peek(Poke(s, Half(c, k), v), q) == if q == Half(c, k) then v else Peek(s, q)
  {
    if q.Half? && q.cell == c {
      Overwrite32Words(s.dwords[c], k, v, q.k);
    }
  }

  lemma PeekPokeQuarter(s: Store, c: nat, k: nat, v: bv16, q: Place)
    requires PlaceIn(Quarter(c, k), s) && PlaceIn(q, s)
    ensures Peek(Poke(s, Quarter(c, k), v), q) == if q == Quarter(c, k) then v else Peek(s, q)
  {
    hide Word64, Overwrite64;
    var s' := Poke(s, Quarter(c, k), v);
    if q.Quarter? {
      if q.cell == c {
        SameCell(s.lwords[c], s'.lwords[c], k, v, q.k);
      } else {
        assert s'.lwords[q.cell] == s.lwords[q.cell];
      }
    }
  }

  lemma SameCell(x: bv64, y: bv64, k: nat, v: bv16, j: nat)
    requires k < 4 && j < 4 && y == Overwrite64(x, (3 - k) * 16, v)
    ensures Word64(y, j) == if j == k then v else Word64(x, j)
  {
    Overwrite64Words(x, k, v, j);
  }

  /** Writing a place changes what is read at that place and at no other: neither the other half or
      the other three quarters of its cell, nor any other cell. */
  lemma PeekPoke(s: Store, pl: Place, v: bv16, q: Place)
    requires PlaceIn(pl, s) && PlaceIn(q, s)
    ensures Peek(Poke(s, pl, v), q) == if q == pl && pl != Nowhere then v else Peek(s, q)
  {
    match pl
    case Nowhere =>
    case Word(c) =>
    case Half(c, k) => PeekPokeHalf(s, c, k, v, q);
    case Quarter(c, k) => PeekPokeQuarter(s, c, k, v, q);
  }

  // --------------------------------------------------------------------------
  // What the server does to the cells
  // --------------------------------------------------------------------------

  /** The 16-bit word at a register address */
  function Register(t: Tables, s: Store, position: nat): bv16
    requires Valid(t, s) && position <= MAX_64B_RANGE
  {
    PlaceValid(t, s, position);
    Peek(s, PlaceOf(t, position))
  }

  /** What writeToRegisterWithoutLocking does to the store; addresses past the last are refused */
  function Assign(t: Tables, s: Store, position: nat, v: bv16): (s': Store)
    requires Valid(t, s)
    ensures SameShape(s, s') && s'.bools == s.bools && Valid(t, s')
  {
    if position <= MAX_64B_RANGE then
      PlaceValid(t, s, position);
      Poke(s, PlaceOf(t, position), v)
    else s
  }

  /** The words written one after the other from `start` on */
  function AssignAll(t: Tables, s: Store, start: nat, ws: seq<bv16>): (s': Store)
    requires Valid(t, s)
    ensures SameShape(s, s') && s'.bools == s.bools && Valid(t, s')
  {
    if |ws| == 0 then s
    else Assign(t, AssignAll(t, s, start, ws[..|ws|-1]), start + |ws| - 1, ws[|ws|-1])
  }

  lemma AssignAllNext(t: Tables, s: Store, start: nat, ws: seq<bv16>, i: nat)
    requires Valid(t, s) && i < |ws|
    ensures AssignAll(t, s, start, ws[..i + 1]) == Assign(t, AssignAll(t, s, start, ws[..i]), start + i, ws[i])
  {
    hide Assign;
    assert ws[..i + 1][..i] == ws[..i];
  }

  // --------------------------------------------------------------------------
  // The flat map that they refine
  // --------------------------------------------------------------------------

  const ADDRESSES: nat := 8192

  /** Where each of the 8192 register addresses lies */
  function Places(t: Tables): (pls: seq<Place>)
    requires TableShape(t)
    ensures |pls| == ADDRESSES
    ensures forall p :: 0 <= p < ADDRESSES ==> pls[p] == PlaceOf(t, p)
  {
    seq(ADDRESSES, p requires 0 <= p < ADDRESSES => PlaceOf(t, p))
  }

  /** The map from register addresses to words */
  function Flat(t: Tables, s: Store): (f: seq<bv16>)
    requires Valid(t, s)
    ensures |f| == ADDRESSES
    ensures forall p :: 0 <= p < ADDRESSES ==> f[p] == Register(t, s, p)
  {
    seq(ADDRESSES, p requires 0 <= p < ADDRESSES => Register(t, s, p))
  }

  function MapAssign(pls: seq<Place>, f: seq<bv16>, p: nat, v: bv16): (f': seq<bv16>)
    requires |pls| == |f|
    ensures |f'| == |f|
    ensures forall q :: 0 <= q < |f| ==>
              f'[q] == if p < |f| && pls[p] != Nowhere && pls[q] == pls[p] then v else f[q]
  {
    if p < |f| && pls[p] != Nowhere then
      seq(|f|, q requires 0 <= q < |f| => if pls[q] == pls[p] then v else f[q])
    else f
  }

  function MapAssignAll(pls: seq<Place>, f: seq<bv16>, start: nat, ws: seq<bv16>): (f': seq<bv16>)
    requires |pls| == |f|
    ensures |f'| == |f|
  {
    if |ws| == 0 then f
    else MapAssign(pls, MapAssignAll(pls, f, start, ws[..|ws|-1]), start + |ws| - 1, ws[|ws|-1])
  }

  /** One write to the cells is one assignment to the map, the other words of a wide cell included. */
  lemma AssignRefines(t: Tables, s: Store, p: nat, v: bv16)
    requires Valid(t, s)
    ensures Flat(t, Assign(t, s, p, v)) == MapAssign(Places(t), Flat(t, s), p, v)
  {
    var s' := Assign(t, s, p, v);
    var f' := MapAssign(Places(t), Flat(t, s), p, v);
    forall q | 0 <= q < ADDRESSES
      ensures Flat(t, s')[q] == f'[q]
    {
      AssignRegister(t, s, p, v, q);
    }
  }

  lemma AssignRegister(t: Tables, s: Store, p: nat, v: bv16, q: nat)
    requires Valid(t, s) && q < ADDRESSES
    ensures Register(t, Assign(t, s, p, v), q)
         == if p < ADDRESSES && PlaceOf(t, p) != Nowhere && PlaceOf(t, q) == PlaceOf(t, p) then v else Register(t, s, q)
  {
    PlaceValid(t, s, q);
    if p < ADDRESSES {
      PlaceValid(t, s, p);
      PeekPoke(s, PlaceOf(t, p), v, PlaceOf(t, q));
    }
  }

  /** Any block of writes to the cells is the same block of assignments to the map. */
  lemma {:induction false} AssignAllRefines(t: Tables, s: Store, start: nat, ws: seq<bv16>)
    requires Valid(t, s)
    ensures Flat(t, AssignAll(t, s, start, ws)) == MapAssignAll(Places(t), Flat(t, s), start, ws)
    decreases |ws|
  {
    if |ws| > 0 {
      var s1 := AssignAll(t, s, start, ws[..|ws|-1]);
      AssignAllRefines(t, s, start, ws[..|ws|-1]);
      AssignRefines(t, s1, start + |ws| - 1, ws[|ws|-1]);
      assert AssignAll(t, s, start, ws) == Assign(t, s1, start + |ws| - 1, ws[|ws|-1]);
    }
  }

  /** No two addresses share a place. */
  predicate Distinct(pls: seq<Place>) {
    forall p, q :: 0 <= p < q < |pls| && pls[p] != Nowhere ==> pls[p] != pls[q]
  }

  /** Without aliases a block of writes assigns exactly the mapped addresses of the block, whatever
      regions it crosses and whatever part of it lies past the last address. */
  lemma {:induction false} MapAssignAllAt(pls: seq<Place>, f: seq<bv16>, start: nat, ws: seq<bv16>, q: nat)
    requires |pls| == |f| && Distinct(pls) && q < |f|
    ensures MapAssignAll(pls, f, start, ws)[q]
         == if start <= q < start + |ws| && pls[q] != Nowhere then ws[q - start] else f[q]
    decreases |ws|
  {
    if |ws| > 0 {
      MapAssignAllAt(pls, f, start, ws[..|ws|-1], q);
    }
  }

  /** With aliases an address shows the last word written to its place. */
  lemma {:induction false} MapAssignAllLast(pls: seq<Place>, f: seq<bv16>, start: nat, ws: seq<bv16>, q: nat, p: nat)
    requires |pls| == |f| && q < |f| && pls[q] != Nowhere
    requires start <= p < start + |ws| && p < |f| && pls[p] == pls[q]
    requires forall r :: p < r < start + |ws| && r < |f| ==> pls[r] != pls[q]
    ensures MapAssignAll(pls, f, start, ws)[q] == ws[p - start]
    decreases |ws|
  {
    if p < start + |ws| - 1 {
      MapAssignAllLast(pls, f, start, ws[..|ws|-1], q, p);
    }
  }

  /** The words of a block that lie past the last address have no effect. */
  lemma {:induction false} AssignAllClipped(t: Tables, s: Store, start: nat, ws: seq<bv16>, n: nat)
    requires Valid(t, s) && n <= |ws| && start + n >= ADDRESSES
    ensures AssignAll(t, s, start, ws) == AssignAll(t, s, start, ws[..n])
    decreases |ws|
  {
    if n < |ws| {
      var m := |ws| - 1;
      AssignAllClipped(t, s, start, ws[..m], n);
      assert ws[..m][..n] == ws[..n];
    } else {
      assert ws[..n] == ws;
    }
  }

  // --------------------------------------------------------------------------
  // Bits and input registers
  // --------------------------------------------------------------------------

  predicate BoolAt(table: seq<Pointer>, bools: seq<bv8>, position: nat)
    requires PointsInto(table, |bools|) && position < |table|
  {
    table[position].To? && bools[table[position].cell] != 0
  }

  function InputRegister(t: Tables, s: Store, position: nat): bv16
    requires Valid(t, s) && position < MAX_INP_REGS
  {
    match t.intInput[position]
    case Null => 0
    case To(c) => s.words[c]
  }

  // --------------------------------------------------------------------------
  // Initialisation: unused slots point into the Modbus arrays
  // --------------------------------------------------------------------------

  function MapTable(table: seq<Pointer>, base: nat): (r: seq<Pointer>)
    ensures |r| == |table|
    ensures forall i :: 0 <= i < |table| ==> r[i] == if table[i] == Null then To(base + i) else table[i]
  {
    seq(|table|, i requires 0 <= i < |table| => if table[i] == Null then To(base + i) else table[i])
  }

  /** The tables after mapUnusedIO */
  function MapUnused(t: Tables): Tables {
    t.(boolInput := MapTable(t.boolInput, DISCRETE_INPUTS),
       boolOutput := MapTable(t.boolOutput, COILS),
       intInput := MapTable(t.intInput, INPUT_REGS),
       intOutput := MapTable(t.intOutput, HOLDING_REGS),
       intMemory := MapTable(t.intMemory, HOLDING_REGS + MIN_16B_RANGE))
  }

  /** No two of the pointers lead to the same cell. */
  predicate NoAlias(ptrs: seq<Pointer>) {
    forall i, j :: 0 <= i < j < |ptrs| && ptrs[i] != Null ==> ptrs[i] != ptrs[j]
  }

  predicate Outside(ptrs: seq<Pointer>, modbusCells: nat) {
    forall i :: 0 <= i < |ptrs| && ptrs[i].To? ==> ptrs[i].cell >= modbusCells
  }

  function BoolPointers(t: Tables): seq<Pointer> {
    t.boolInput + t.boolOutput
  }

  function WordPointers(t: Tables): seq<Pointer> {
    t.intInput + t.intOutput + [t.afterIntOutput] + t.intMemory
  }

  /** The program's own variables: distinct cells, none of them inside a Modbus array */
  predicate WellGlued(t: Tables) {
    && NoAlias(BoolPointers(t)) && Outside(BoolPointers(t), MODBUS_BOOLS)
    && NoAlias(WordPointers(t)) && Outside(WordPointers(t), MODBUS_WORDS)
    && NoAlias(t.dintMemory) && NoAlias(t.lintMemory)
  }

  lemma MapUnusedIdempotent(t: Tables)
    ensures MapUnused(MapUnused(t)) == MapUnused(t)
  {
  }

  /** A pointer that was glued is kept; a slot that was not is no longer empty. */
  lemma MapUnusedFills(t: Tables, s: Store)
    requires Valid(t, s)
    ensures Valid(MapUnused(t), s)
    ensures var m := MapUnused(t);
            && Null !in m.boolInput && Null !in m.boolOutput
            && Null !in m.intInput && Null !in m.intOutput && Null !in m.intMemory
    ensures var m := MapUnused(t);
            && (forall i :: 0 <= i < |t.boolInput| && t.boolInput[i].To? ==> m.boolInput[i] == t.boolInput[i])
            && (forall i :: 0 <= i < |t.boolOutput| && t.boolOutput[i].To? ==> m.boolOutput[i] == t.boolOutput[i])
            && (forall i :: 0 <= i < |t.intInput| && t.intInput[i].To? ==> m.intInput[i] == t.intInput[i])
            && (forall i :: 0 <= i < |t.intOutput| && t.intOutput[i].To? ==> m.intOutput[i] == t.intOutput[i])
            && (forall i :: 0 <= i < |t.intMemory| && t.intMemory[i].To? ==> m.intMemory[i] == t.intMemory[i])
  {
  }

  /** Where the empty slots lead: slot i of the bit tables to cell i of their Modbus arrays, slot i of the inputs to
      input register i, and slot i of the outputs and of the memory words to holding registers i and 1024 + i. */
  lemma MapUnusedPlaces(t: Tables)
    requires TableShape(t)
    ensures var m := MapUnused(t);
            && (forall i :: 0 <= i < 8192 && t.boolInput[i] == Null ==> m.boolInput[i] == To(DISCRETE_INPUTS + i))
            && (forall i :: 0 <= i < 8192 && t.boolOutput[i] == Null ==> m.boolOutput[i] == To(COILS + i))
            && (forall i :: 0 <= i < 1024 && t.intInput[i] == Null ==> m.intInput[i] == To(INPUT_REGS + i))
            && (forall i :: 0 <= i < 1024 && t.intOutput[i] == Null ==> m.intOutput[i] == To(HOLDING_REGS + i))
            && (forall i :: 0 <= i < 1024 && t.intMemory[i] == Null ==> m.intMemory[i] == To(HOLDING_REGS + 1024 + i))
            && m.afterIntOutput == t.afterIntOutput && m.dintMemory == t.dintMemory && m.lintMemory == t.lintMemory
  {
  }

  /** Initialisation leaves every slot on a cell of its own. */
  lemma MapUnusedNoAlias(t: Tables)
    requires TableShape(t) && WellGlued(t)
    ensures NoAlias(BoolPointers(MapUnused(t))) && NoAlias(WordPointers(MapUnused(t)))
  {
    var m := MapUnused(t);
    var b, b' := BoolPointers(t), BoolPointers(m);
    forall i, j | 0 <= i < j < |b'|
      ensures b'[i] != b'[j]
    {
      assert b'[i] == if b[i] == Null then To(i) else b[i];
      assert b'[j] == if b[j] == Null then To(j) else b[j];
    }
    var w, w' := WordPointers(t), WordPointers(m);
    forall i, j | 0 <= i < j < |w'| && w'[i] != Null
      ensures w'[i] != w'[j]
    {
      assert w'[i] == MappedWord(w, i) && w'[j] == MappedWord(w, j);
    }
  }

  /** The word pointer number i of the concatenated tables, after mapping */
  function MappedWord(w: seq<Pointer>, i: nat): Pointer
    requires |w| == 3 * BUFFER_SIZE + 1 && i < |w|
  {
    if w[i] != Null || i == 2 * BUFFER_SIZE then w[i]
    else if i < BUFFER_SIZE then To(INPUT_REGS + i)
    else To(HOLDING_REGS + i - BUFFER_SIZE - (if i > 2 * BUFFER_SIZE then 1 else 0))
  }

  /** After initialisation the 8192 register addresses are 8192 different words, except that address
      1024 denotes nothing when nothing is found behind int_output. */
  lemma InitialMapDistinct(t: Tables)
    requires TableShape(t) && WellGlued(t)
    ensures Distinct(Places(MapUnused(t)))
    ensures forall p :: 0 <= p < ADDRESSES ==>
              (Places(MapUnused(t))[p] == Nowhere <==> p == MIN_16B_RANGE && t.afterIntOutput == Null)
  {
    var m := MapUnused(t);
    var pls := Places(m);
    MapUnusedNoAlias(t);
    forall p, q | 0 <= p < q < ADDRESSES && pls[p] != Nowhere
      ensures pls[p] != pls[q]
    {
      DistinctPlaces(t, p, q);
    }
  }

  lemma DistinctPlaces(t: Tables, p: nat, q: nat)
    requires TableShape(t) && WellGlued(t) && p < q < ADDRESSES
    ensures PlaceOf(MapUnused(t), p) != Nowhere ==> PlaceOf(MapUnused(t), p) != PlaceOf(MapUnused(t), q)
  {
    if p > MAX_16B_RANGE {
      WidePlacesDistinct(MapUnused(t), p, q);
    } else {
      hide PlaceOf, MapUnused, WordPointers, BoolPointers, WellGlued;
      MapUnusedNoAlias(t);
      NarrowPlace(t, p);
      NarrowPlace(t, q);
    }
  }

  lemma WidePlacesDistinct(t: Tables, p: nat, q: nat)
    requires TableShape(t) && NoAlias(t.dintMemory) && NoAlias(t.lintMemory) && MAX_16B_RANGE < p < q < ADDRESSES
    ensures PlaceOf(t, p) != PlaceOf(t, q)
  {
    if MIN_64B_RANGE <= p {
      var i, j := (p - MIN_64B_RANGE) / 4, (q - MIN_64B_RANGE) / 4;
      assert t.lintMemory[i].To? && i < j ==> t.lintMemory[i] != t.lintMemory[j];
    } else if q <= MAX_32B_RANGE {
      var i, j := (p - MIN_32B_RANGE) / 2, (q - MIN_32B_RANGE) / 2;
      assert t.dintMemory[i].To? && i < j ==> t.dintMemory[i] != t.dintMemory[j];
    }
  }

  lemma NarrowPlace(t: Tables, p: nat)
    requires TableShape(t) && WellGlued(t) && p < ADDRESSES
    ensures p <= MAX_16B_RANGE ==>
              var k := BUFFER_SIZE + p + (if p > MIN_16B_RANGE then 1 else 0);
              PlaceOf(MapUnused(t), p) == WordAt(WordPointers(MapUnused(t))[k])
    ensures p <= MAX_16B_RANGE && PlaceOf(MapUnused(t), p).Word? ==>
              PlaceOf(MapUnused(t), p).cell < MIN_32B_RANGE || PlaceOf(MapUnused(t), p).cell >= MODBUS_WORDS
    ensures p > MAX_16B_RANGE && PlaceOf(MapUnused(t), p).Word? ==> PlaceOf(MapUnused(t), p).cell == HOLDING_REGS + p
  {
    var w := WordPointers(t);
    if p < MIN_16B_RANGE {
      assert w[BUFFER_SIZE + p] == t.intOutput[p];
    } else if p == MIN_16B_RANGE {
      assert w[2 * BUFFER_SIZE] == t.afterIntOutput;
    } else if p <= MAX_16B_RANGE {
      assert w[BUFFER_SIZE + p + 1] == t.intMemory[p - MIN_16B_RANGE];
    }
  }
}
