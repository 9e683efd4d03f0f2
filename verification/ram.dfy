/**
  The variable store: a growable array of (identifier, value) cells. A
  variable's address is the index of its cell, fixed when the variable is
  first written by name. Cells at or beyond `numValues` are unused slots.
 */
module Ram {
  import opened Values

  datatype Cell = Cell(identifier: Option<string>, value: Value)

  /** A slot no variable has been written to: no identifier, value None. */
  const EmptyCell: Cell := Cell(None, NoneValue)

  const InitialCapacity: nat := 4

  datatype Memory = Memory(cells: seq<Cell>, numValues: nat, capacity: nat)

  /**
    The representation invariant: the array holds `capacity` cells, the first
    `numValues` are named by distinct identifiers and the rest are empty.
   */
  ghost predicate Valid(m: Memory) {
    && |m.cells| == m.capacity
    && 0 < m.capacity
    && m.numValues <= m.capacity
    && (forall i | 0 <= i < m.numValues :: m.cells[i].identifier.Some?)
    && (forall i, j | 0 <= i < j < m.numValues :: m.cells[i].identifier != m.cells[j].identifier)
    && (forall i | m.numValues <= i < m.capacity :: m.cells[i] == EmptyCell)
  }

  /** Some occupied cell is named `name`. */
  ghost predicate Defined(m: Memory, name: string)
    requires Valid(m)
  {
    exists i | 0 <= i < m.numValues :: m.cells[i].identifier == Some(name)
  }

  /** The occupied cell named `name` holds `v`. */
  ghost predicate Holds(m: Memory, name: string, v: Value)
    requires Valid(m)
  {
    exists i | 0 <= i < m.numValues :: m.cells[i] == Cell(Some(name), v)
  }

  /**
    `m'` is `m` after some writes: every variable of `m` is still there, at
    the same address.
   */
  ghost predicate Extends(m: Memory, m': Memory)
    requires Valid(m) && Valid(m')
  {
    && m.numValues <= m'.numValues
    && forall i | 0 <= i < m.numValues :: m'.cells[i].identifier == m.cells[i].identifier
  }

  /** ram_init */
  function Init(): (m: Memory)
    ensures Valid(m)
    ensures m.numValues == 0 && m.capacity == InitialCapacity
    ensures forall i | 0 <= i < |m.cells| :: m.cells[i] == EmptyCell
    ensures forall name :: !Defined(m, name)
  {
    Memory(seq(InitialCapacity, _ => EmptyCell), 0, InitialCapacity)
  }

  /** The linear search of ram_get_addr, from index `from` on. */
  function Find(m: Memory, name: string, from: nat): (a: int)
    requires Valid(m) && from <= m.numValues
    ensures a == -1 || from <= a < m.numValues
    ensures a == -1 <==> forall i | from <= i < m.numValues :: m.cells[i].identifier != Some(name)
    ensures a != -1 ==> m.cells[a].identifier == Some(name)
    ensures a != -1 ==> forall j | from <= j < a :: m.cells[j].identifier != Some(name)
    decreases m.numValues - from
  {
    if from == m.numValues then -1
    else if m.cells[from].identifier == Some(name) then from
    else Find(m, name, from + 1)
  }

  /** ram_get_addr: the address of `name`, or -1 if it was never written. */
  function GetAddr(m: Memory, name: string): (a: int)
    requires Valid(m)
    ensures -1 <= a < m.numValues
    ensures a == -1 <==> !Defined(m, name)
    ensures a != -1 ==> m.cells[a].identifier == Some(name)
    ensures a != -1 ==> forall j | 0 <= j < a :: m.cells[j].identifier != Some(name)
  {
    Find(m, name, 0)
  }

  /** ram_read_cell_by_addr: a copy of the value at `address`, if that cell is occupied. */
  function ReadByAddr(m: Memory, address: int): (r: Option<Value>)
    requires Valid(m)
    ensures r.None? <==> address < 0 || address >= m.numValues
    ensures r.Some? ==> r.value == m.cells[address].value
    ensures r.Some? ==> Holds(m, m.cells[address].identifier.value, r.value)
  {
    if address < 0 || address >= m.numValues then None
    else Some(m.cells[address].value)
  }

  /** ram_read_cell_by_name: a copy of the value of `name`, if it is defined. */
  function ReadByName(m: Memory, name: string): (r: Option<Value>)
    requires Valid(m)
    ensures r.None? <==> !Defined(m, name)
    ensures r.Some? ==> Holds(m, name, r.value)
    ensures r == ReadByAddr(m, GetAddr(m, name))
  {
    var addr := GetAddr(m, name);
    if addr == -1 then None
    else ReadByAddr(m, addr)
  }

  /**
    ram_write_cell_by_addr: overwrite the value of an occupied cell; the
    identifier at that address and every other cell stay as they were.
   */
  function WriteByAddr(m: Memory, value: Value, address: int): (r: Option<Memory>)
    requires Valid(m)
    ensures r.None? <==> address < 0 || address >= m.numValues
    ensures r.Some? ==> Valid(r.value) && Extends(m, r.value)
    ensures r.Some? ==> r.value.numValues == m.numValues && r.value.capacity == m.capacity
    ensures r.Some? ==> r.value.cells[address] == Cell(m.cells[address].identifier, value)
    ensures r.Some? ==> forall i | 0 <= i < |m.cells| && i != address :: r.value.cells[i] == m.cells[i]
  {
    if address < 0 || address >= m.numValues then None
    else Some(m.(cells := m.cells[address := Cell(m.cells[address].identifier, value)]))
  }

  /** The array after a full store doubles: old cells in place, new slots empty. */
  function Grow(m: Memory): (r: Memory)
    requires Valid(m)
    ensures Valid(r) && Extends(m, r)
    ensures r.numValues == m.numValues && r.capacity == 2 * m.capacity
    ensures forall i | 0 <= i < |m.cells| :: r.cells[i] == m.cells[i]
  {
    Memory(m.cells + seq(m.capacity, _ => EmptyCell), m.numValues, 2 * m.capacity)
  }

  /**
    ram_write_cell_by_name: overwrite `name`'s cell in place if it exists,
    otherwise append a new cell at address `numValues`, doubling the array
    first when it is full.
   */
  function WriteByName(m: Memory, value: Value, name: string): (r: Memory)
    requires Valid(m)
    ensures Valid(r) && Extends(m, r)
    ensures Defined(m, name) ==>
      && r.numValues == m.numValues && r.capacity == m.capacity
      && r.cells == m.cells[GetAddr(m, name) := Cell(Some(name), value)]
    ensures !Defined(m, name) ==>
      && r.numValues == m.numValues + 1
      && r.cells[m.numValues] == Cell(Some(name), value)
      && (forall i | 0 <= i < m.numValues :: r.cells[i] == m.cells[i])
      && r.capacity == (if m.numValues < m.capacity then m.capacity else 2 * m.capacity)
    ensures GetAddr(r, name) == (if Defined(m, name) then GetAddr(m, name) else m.numValues)
    ensures ReadByName(r, name) == Some(value)
    ensures forall other | other != name :: ReadByName(r, other) == ReadByName(m, other)
  {
    var addr := GetAddr(m, name);
    if addr != -1 then
      var r := WriteByAddr(m, value, addr).value;
      OverwriteReads(m, r, addr);
      r
    else
      var g := if m.numValues >= m.capacity then Grow(m) else m;
      var r := g.(cells := g.cells[g.numValues := Cell(Some(name), value)], numValues := g.numValues + 1);
      AppendReads(m, g, r, name, value);
      r
  }

  /**
    After `m`'s cell at `addr` is given a new value, `addr` still holds the
    same variable and every other variable reads as before.
   */
  lemma OverwriteReads(m: Memory, r: Memory, addr: int)
    requires Valid(m) && Valid(r)
    requires 0 <= addr < m.numValues
    requires r.numValues == m.numValues && r.capacity == m.capacity
    requires forall i | 0 <= i < |m.cells| && i != addr :: r.cells[i] == m.cells[i]
    requires r.cells[addr].identifier == m.cells[addr].identifier
    ensures forall name :: GetAddr(r, name) == GetAddr(m, name)
    ensures forall other | other != m.cells[addr].identifier.value :: ReadByName(r, other) == ReadByName(m, other)
  {
    forall name ensures GetAddr(r, name) == GetAddr(m, name) {
      SameIdentifiersSameAddr(m, r, name);
    }
  }

  /** Two stores whose occupied cells carry the same identifiers agree on every address. */
  lemma SameIdentifiersSameAddr(m: Memory, r: Memory, name: string)
    requires Valid(m) && Valid(r) && r.numValues == m.numValues
    requires forall i | 0 <= i < m.numValues :: r.cells[i].identifier == m.cells[i].identifier
    ensures GetAddr(r, name) == GetAddr(m, name)
  {
    if GetAddr(m, name) != -1 {
      ExtendsKeepsAddress(m, r, name);
    } else {
      assert forall i | 0 <= i < r.numValues :: r.cells[i].identifier != Some(name);
    }
  }

  /** Appending a fresh `name` at `numValues` leaves every other variable's address and value alone. */
  lemma AppendReads(m: Memory, g: Memory, r: Memory, name: string, value: Value)
    requires Valid(m) && Valid(g) && Valid(r) && !Defined(m, name)
    requires g.numValues == m.numValues && g.numValues < g.capacity
    requires forall i | 0 <= i < m.numValues :: g.cells[i] == m.cells[i]
    requires r.numValues == m.numValues + 1 && r.capacity == g.capacity
    requires r.cells == g.cells[g.numValues := Cell(Some(name), value)]
    ensures GetAddr(r, name) == m.numValues
    ensures ReadByName(r, name) == Some(value)
    ensures forall other | other != name :: ReadByName(r, other) == ReadByName(m, other)
  {
    assert r.cells[m.numValues].identifier == Some(name);
    assert forall j | 0 <= j < m.numValues :: r.cells[j].identifier != Some(name);
    forall other | other != name ensures ReadByName(r, other) == ReadByName(m, other) {
      if GetAddr(m, other) != -1 {
        ExtendsKeepsAddress(m, r, other);
      } else {
        assert forall i | 0 <= i < r.numValues :: r.cells[i].identifier != Some(other);
      }
    }
  }

  /** Once written, a variable keeps its address in every store that extends this one. */
  lemma ExtendsKeepsAddress(m: Memory, m': Memory, name: string)
    requires Valid(m) && Valid(m') && Extends(m, m')
    requires GetAddr(m, name) != -1
    ensures GetAddr(m', name) == GetAddr(m, name)
  {
    var a := GetAddr(m, name);
    assert m'.cells[a].identifier == Some(name);
    assert forall j | 0 <= j < a :: m'.cells[j].identifier != Some(name);
  }

  /** Writing a sequence of (name, value) pairs by name, in order. */
  function WriteAll(m: Memory, writes: seq<(string, Value)>): (r: Memory)
    requires Valid(m)
    ensures Valid(r)
    decreases |writes|
  {
    if |writes| == 0 then m
    else WriteAll(WriteByName(m, writes[0].1, writes[0].0), writes[1..])
  }

  /**
    Address stability: after any sequence of writes by name, a variable that
    already had an address still has that same address, and nothing that was
    defined has disappeared.
   */
  lemma {:induction false} WriteAllKeepsAddresses(m: Memory, writes: seq<(string, Value)>, name: string)
    requires Valid(m) && Defined(m, name)
    ensures Defined(WriteAll(m, writes), name)
    ensures GetAddr(WriteAll(m, writes), name) == GetAddr(m, name)
    decreases |writes|
  {
    if |writes| > 0 {
      var m1 := WriteByName(m, writes[0].1, writes[0].0);
      ExtendsKeepsAddress(m, m1, name);
      WriteAllKeepsAddresses(m1, writes[1..], name);
    }
  }

  /** Reading back what was just written at an occupied address gives that value. */
  lemma ReadAfterWriteByAddr(m: Memory, value: Value, address: int)
    requires Valid(m) && 0 <= address < m.numValues
    ensures WriteByAddr(m, value, address).Some?
    ensures ReadByAddr(WriteByAddr(m, value, address).value, address) == Some(value)
  {
  }
}
