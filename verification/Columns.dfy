/** The module columns of a port (`struct ovs_module_info`) as C holds them: some columns point to
    string literals, the others own a block of the C heap. */
module Columns {

  datatype Column =
    | CableLength | CableTechnology | Connector | ConnectorStatus | SupportedSpeeds | MaxSpeed
    | PowerMode | VendorName | VendorOui | VendorPartNumber | VendorRevision | VendorSerialNumber
    | A0 | A0Uppers | A2

  /** Columns only ever assigned string literals, by SET_STATIC_STRING. */
  predicate IsStatic(c: Column)
  {
    c.Connector? || c.ConnectorStatus? || c.CableTechnology? || c.PowerMode?
  }

  /** Columns only ever written by SET_INT_STRING. */
  predicate IsInt(c: Column)
  {
    c.MaxSpeed? || c.CableLength?
  }

  type Addr = nat

  /** A non-NULL value; a NULL column is a column without a cell. */
  datatype Cell = Literal(text: string) | Block(addr: Addr)

  type Cells = map<Column, Cell>
  type Live = map<Addr, string>

  /** The blocks a port owns. */
  ghost function Addrs(cells: Cells): set<Addr>
  {
    set c | c in cells && cells[c].Block? :: cells[c].addr
  }

  /** Ownership: literals exactly in the static columns, every other column its own live block. */
  ghost predicate Owns(cells: Cells, live: Live)
  {
    && (forall c :: c in cells ==> (cells[c].Literal? <==> IsStatic(c)))
    && (forall c :: c in cells && cells[c].Block? ==> cells[c].addr in live)
    && BlocksDiffer(cells)
  }

  /** No block belongs to two columns. */
  ghost predicate BlocksDiffer(cells: Cells)
  {
    forall c, d :: c in cells && d in cells && c != d && cells[c].Block? && cells[d].Block?
      ==> cells[c].addr != cells[d].addr
  }

  ghost function CellText(cell: Cell, live: Live): string
  {
    match cell
    case Literal(t) => t
    case Block(a) => if a in live then live[a] else ""
  }

  /** What the columns say. */
  ghost function Texts(cells: Cells, live: Live): map<Column, string>
  {
    map c | c in cells :: CellText(cells[c], live)
  }

  /** The heap after `free(port->field)`, which is a no-op on NULL. */
  ghost function Freed(cells: Cells, live: Live, c: Column): Live
  {
    if c in cells && cells[c].Block? then live - {cells[c].addr} else live
  }

  /** The part of the heap the port does not own. */
  ghost function Foreign(cells: Cells, live: Live): Live
  {
    live - Addrs(cells)
  }

  lemma AddrsOf(cells: Cells, c: Column)
    ensures c in cells && cells[c].Block? ==> cells[c].addr in Addrs(cells)
  {
  }

  lemma AddrsSplit(cells: Cells, c: Column)
    ensures Addrs(cells) == Addrs(cells - {c}) + if c in cells && cells[c].Block? then {cells[c].addr} else {}
  {
    forall a | a in Addrs(cells) && !(c in cells && cells[c] == Block(a)) ensures a in Addrs(cells - {c}) {
      var d :| d in cells && cells[d] == Block(a);
      AddrsOf(cells - {c}, d);
    }
  }

  lemma RemoveTexts(cells: Cells, live: Live, c: Column)
    requires Owns(cells, live)
    ensures Texts(cells - {c}, Freed(cells, live, c)) == Texts(cells, live) - {c}
  {
    var left := Texts(cells - {c}, Freed(cells, live, c));
    forall d | d in cells && d != c ensures left[d] == Texts(cells, live)[d] {
    }
    assert left == Texts(cells, live) - {c};
  }

  /** Free a column's block and set the column to NULL: ownership is kept, that column alone loses its
      text, and no other block appears, disappears or changes. */
  lemma Remove(cells: Cells, live: Live, c: Column)
    requires Owns(cells, live)
    ensures Owns(cells - {c}, Freed(cells, live, c))
    ensures Texts(cells - {c}, Freed(cells, live, c)) == Texts(cells, live) - {c}
    ensures Foreign(cells - {c}, Freed(cells, live, c)) == Foreign(cells, live)
  {
    AddrsSplit(cells, c);
    RemoveTexts(cells, live, c);
    hide Texts;
  }

  lemma InsertOwns(cells: Cells, live: Live, c: Column, a: Addr, text: string)
    requires Owns(cells, live) && c !in cells && !IsStatic(c) && a !in live
    ensures Owns(cells[c := Block(a)], live[a := text])
  {
  }

  lemma InsertTexts(cells: Cells, live: Live, c: Column, a: Addr, text: string)
    requires Owns(cells, live) && c !in cells && a !in live
    ensures Texts(cells[c := Block(a)], live[a := text]) == Texts(cells, live)[c := text]
  {
  }

  /** Store the address of a newly allocated block in a NULL column. */
  lemma Insert(cells: Cells, live: Live, c: Column, a: Addr, text: string)
    requires Owns(cells, live) && c !in cells && !IsStatic(c) && a !in live
    ensures Owns(cells[c := Block(a)], live[a := text])
    ensures Texts(cells[c := Block(a)], live[a := text]) == Texts(cells, live)[c := text]
    ensures Foreign(cells[c := Block(a)], live[a := text]) == Foreign(cells, live)
  {
    InsertOwns(cells, live, c, a, text);
    InsertTexts(cells, live, c, a, text);
    AddrsSplit(cells[c := Block(a)], c);
    assert cells[c := Block(a)] - {c} == cells;
  }

  lemma PutAgain<K, V>(m: map<K, V>, k: K, v: V)
    ensures (m - {k})[k := v] == m[k := v]
  {
  }

  /** Free a column's block, allocate a new one and store its address. */
  lemma Replace(cells: Cells, live: Live, c: Column, a: Addr, text: string)
    requires Owns(cells, live) && !IsStatic(c) && a !in Freed(cells, live, c)
    ensures Owns(cells[c := Block(a)], Freed(cells, live, c)[a := text])
    ensures Texts(cells[c := Block(a)], Freed(cells, live, c)[a := text]) == Texts(cells, live)[c := text]
    ensures Foreign(cells[c := Block(a)], Freed(cells, live, c)[a := text]) == Foreign(cells, live)
  {
    Remove(cells, live, c);
    Insert(cells - {c}, Freed(cells, live, c), c, a, text);
    PutAgain(cells, c, Block(a));
    PutAgain(Texts(cells, live), c, text);
  }

  lemma LiteralOwns(cells: Cells, live: Live, c: Column, text: string)
    requires Owns(cells, live) && IsStatic(c)
    ensures Owns(cells[c := Literal(text)], live)
  {
  }

  lemma LiteralAddrs(cells: Cells, live: Live, c: Column, text: string)
    requires Owns(cells, live) && IsStatic(c)
    ensures Addrs(cells[c := Literal(text)]) == Addrs(cells)
  {
    var cells' := cells[c := Literal(text)];
    AddrsSplit(cells, c);
    AddrsSplit(cells', c);
    assert cells' - {c} == cells - {c};
  }

  /** Assigning a literal leaves the heap alone. */
  lemma StoreLiteral(cells: Cells, live: Live, c: Column, text: string)
    requires Owns(cells, live) && IsStatic(c)
    ensures Owns(cells[c := Literal(text)], live)
    ensures Texts(cells[c := Literal(text)], live) == Texts(cells, live)[c := text]
    ensures Foreign(cells[c := Literal(text)], live) == Foreign(cells, live)
  {
    var cells' := cells[c := Literal(text)];
    LiteralOwns(cells, live, c, text);
    LiteralAddrs(cells, live, c, text);
    assert Texts(cells', live) == Texts(cells, live)[c := text];
  }

  /** A port that owns its blocks keeps its texts when the rest of the heap changes. */
  lemma TextsKept(cells: Cells, live: Live, live': Live)
    requires Owns(cells, live)
    requires forall a :: a in Addrs(cells) ==> a in live' && (a in live ==> live'[a] == live[a])
    ensures Owns(cells, live') && Texts(cells, live') == Texts(cells, live)
  {
    forall c | c in cells && cells[c].Block?
      ensures cells[c].addr in live' && live'[cells[c].addr] == live[cells[c].addr]
    {
      AddrsOf(cells, c);
    }
    assert Texts(cells, live') == Texts(cells, live);
  }

  lemma OwnedLive(cells: Cells, live: Live, a: Addr)
    requires Owns(cells, live) && a in Addrs(cells)
    ensures a in live
  {
  }

  /** Two ports with separate blocks: when one works on its own blocks only, the other keeps its
      texts, and the two stay separate. */
  lemma NeighbourKept(mine: Cells, live: Live, mine': Cells, live': Live, other: Cells)
    requires Foreign(mine', live') == Foreign(mine, live)
    requires Owns(other, live) && Addrs(mine) !! Addrs(other)
    ensures Owns(other, live') && Texts(other, live') == Texts(other, live) && Addrs(mine') !! Addrs(other)
  {
    forall a | a in Addrs(other) ensures a in live' && a !in Addrs(mine') && (a in live ==> live'[a] == live[a]) {
      OwnedLive(other, live, a);
      assert a in Foreign(mine, live);
      assert a in Foreign(mine', live');
      assert Foreign(mine', live')[a] == live'[a] && Foreign(mine, live)[a] == live[a];
    }
    TextsKept(other, live, live');
  }

  /** The columns of several ports divide the heap between them: no two ports share a block, and no
      block is without an owner. */
  ghost predicate Divides<K(!new)>(ports: map<K, Cells>, live: Live)
  {
    && (forall k :: k in ports ==> Owns(ports[k], live))
    && (forall j, k :: j in ports && k in ports && j != k ==> Addrs(ports[j]) !! Addrs(ports[k]))
    && (forall a :: a in live ==> exists k :: k in ports && a in Addrs(ports[k]))
  }

  /** When one port works on its own blocks only, the others keep their texts and the division
      stands. */
  lemma OneTouched<K(!new)>(ports: map<K, Cells>, live: Live, n: K, mine: Cells, live': Live)
    requires Divides(ports, live) && n in ports
    requires Owns(mine, live') && Foreign(mine, live') == Foreign(ports[n], live)
    ensures Divides(ports[n := mine], live')
    ensures forall k :: k in ports && k != n ==> Texts(ports[k], live') == Texts(ports[k], live)
  {
    hide Owns, Addrs, Texts;
    var ports' := ports[n := mine];
    forall k | k in ports && k != n
      ensures Owns(ports[k], live') && Texts(ports[k], live') == Texts(ports[k], live)
      ensures Addrs(mine) !! Addrs(ports[k])
    {
      NeighbourKept(ports[n], live, mine, live', ports[k]);
    }
    forall a | a in live' ensures exists k :: k in ports' && a in Addrs(ports'[k]) {
      if a in Addrs(mine) {
        assert a in Addrs(ports'[n]);
      } else {
        assert a in Foreign(mine, live');
        assert a in Foreign(ports[n], live);
        var k :| k in ports && a in Addrs(ports[k]);
        assert a in Addrs(ports'[k]);
      }
    }
  }

  /** A port without blocks may leave. */
  lemma OneLess<K(!new)>(ports: map<K, Cells>, live: Live, n: K)
    requires Divides(ports, live) && n in ports && Addrs(ports[n]) == {}
    ensures Divides(ports - {n}, live)
  {
    hide Owns, Addrs;
    var ports' := ports - {n};
    forall a | a in live ensures exists k :: k in ports' && a in Addrs(ports'[k]) {
      var k :| k in ports && a in Addrs(ports[k]);
      assert k in ports';
    }
  }

  /** A port without columns may join. */
  lemma OneMore<K(!new)>(ports: map<K, Cells>, live: Live, n: K)
    requires Divides(ports, live) && n !in ports
    ensures Divides(ports[n := map[]], live)
  {
    hide Owns, Addrs;
    NoneOwned(live);
    var ports' := ports[n := map[]];
    forall a | a in live ensures exists k :: k in ports' && a in Addrs(ports'[k]) {
      var k :| k in ports && a in Addrs(ports[k]);
      assert k in ports';
    }
  }

  lemma NoneOwned(live: Live)
    ensures Owns(map[], live) && Addrs(map[]) == {}
  {
  }

  /** The C allocator. `Free` demands a live block: a double free, a free of a literal or of a
      dangling address has no model. */
  class Heap {
    var live: Live
    var next: Addr

    ghost predicate Valid()
      reads this
    {
      forall a :: a in live ==> a < next
    }

    constructor ()
      ensures Valid() && live == map[]
    {
      live, next := map[], 0;
    }

    /** `strdup`, `asprintf`, `malloc`: any address that is not live. */
    method Alloc(text: string) returns (a: Addr)
      requires Valid()
      modifies this
      ensures Valid() && a !in old(live) && live == old(live)[a := text]
    {
      a := next;
      live, next := live[a := text], next + 1;
    }

    method Free(a: Addr)
      requires Valid() && a in live
      modifies this
      ensures Valid() && live == old(live) - {a}
    {
      live := live - {a};
    }
  }
}
