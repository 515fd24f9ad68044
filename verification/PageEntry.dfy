/** Page-table entries and the identities of tables and of 4 KiB pages. */
module PageEntry {

  type Frame = nat

  /** The fields of a 64-bit entry that the kernel reads or writes; `frame` is the
      physical address field divided by the page size. */
  datatype Entry = Entry(frame: Frame, present: bool, writable: bool, user: bool,
                         writeThrough: bool, cacheDisable: bool, huge: bool,
                         isGlobal: bool, cow: bool, noExecute: bool)

  const ZERO: Entry := Entry(0, false, false, false, false, false, false, false, false, false)

  const ENTRIES: nat := 512
  const USER_ENTRIES: nat := 256

  /** An entry for a next-level table: present, writable and user. */
  function DirEntry(f: Frame): Entry {
    Entry(f, true, true, true, false, false, false, false, false, false)
  }

  /** What fork leaves in both spaces: no longer writable, but copied on a write. */
  function CowMark(e: Entry): Entry {
    if e.writable then e.(writable := false, cow := true) else e
  }

  /** A 4 KiB page of the address space rooted at frame `r`, by its four indices. */
  datatype Slot = Slot(r: Frame, a: nat, b: nat, c: nat, d: nat)

  function Reroot(s: Slot, r: Frame): Slot { s.(r := r) }

  predicate SamePage(s: Slot, t: Slot) { s.a == t.a && s.b == t.b && s.c == t.c && s.d == t.d }

  type Table = t: seq<Entry> | |t| == ENTRIES witness seq(ENTRIES, _ => ZERO)

  /** A table of the tree rooted at frame `r`, by the indices that lead to it. */
  datatype Node =
    | Pml4(r: Frame)
    | Pdpt(r: Frame, a: nat)
    | Pd(r: Frame, a: nat, b: nat)
    | Pt(r: Frame, a: nat, b: nat, c: nat)

  function Child(n: Node, i: nat): Node
    requires !n.Pt?
  {
    match n
    case Pml4(r) => Pdpt(r, i)
    case Pdpt(r, a) => Pd(r, a, i)
    case Pd(r, a, b) => Pt(r, a, b, i)
  }

  function Parent(n: Node): Node
    requires !n.Pml4?
  {
    match n
    case Pdpt(r, a) => Pml4(r)
    case Pd(r, a, b) => Pdpt(r, a)
    case Pt(r, a, b, c) => Pd(r, a, b)
  }

  function Index(n: Node): nat
    requires !n.Pml4?
  {
    match n
    case Pdpt(_, a) => a
    case Pd(_, _, b) => b
    case Pt(_, _, _, c) => c
  }

  /** Levels count up from the leaf tables. */
  function Level(n: Node): nat {
    match n
    case Pml4(_) => 3
    case Pdpt(_, _) => 2
    case Pd(_, _, _) => 1
    case Pt(_, _, _, _) => 0
  }

  function PtOf(s: Slot): Node { Pt(s.r, s.a, s.b, s.c) }

  function SlotAt(n: Node, d: nat): Slot
    requires n.Pt?
  {
    Slot(n.r, n.a, n.b, n.c, d)
  }

  function RerootNode(n: Node, r: Frame): Node {
    match n
    case Pml4(_) => Pml4(r)
    case Pdpt(_, a) => Pdpt(r, a)
    case Pd(_, a, b) => Pd(r, a, b)
    case Pt(_, a, b, c) => Pt(r, a, b, c)
  }

  /** Slot `s` is translated through table `n`. */
  predicate Under(s: Slot, n: Node) {
    match n
    case Pml4(r) => s.r == r
    case Pdpt(r, a) => s.r == r && s.a == a
    case Pd(r, a, b) => s.r == r && s.a == a && s.b == b
    case Pt(r, a, b, c) => s.r == r && s.a == a && s.b == b && s.c == c
  }

  /** The entry of table `n` that translates `s`. */
  function IndexIn(s: Slot, n: Node): nat {
    match n
    case Pml4(_) => s.a
    case Pdpt(_, _) => s.b
    case Pd(_, _, _) => s.c
    case Pt(_, _, _, _) => s.d
  }

  /** Table `m` is `n` or lies below it. */
  predicate Below(m: Node, n: Node) {
    match n
    case Pml4(r) => m.r == r
    case Pdpt(r, a) => m.r == r && !m.Pml4? && m.a == a
    case Pd(r, a, b) => m.r == r && (m.Pd? || m.Pt?) && m.a == a && m.b == b
    case Pt(r, a, b, c) => m == n
  }
}
