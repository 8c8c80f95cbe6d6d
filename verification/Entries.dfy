/** Page-table entries of the guest and of the shadow tables, one field per bit group that
    `mmu.c` masks, the operations that fill or repair one shadow entry, and the index of an entry. */
module Entries {

  datatype Option<+T> = None | Some(value: T)

  /** The bits a shadow entry inherits verbatim from the guest entry it shadows. */
  datatype Attr = Attr(pwt: bool, pcd: bool, accessed: bool, dirty: bool, pat: bool, nx: bool)

  /** A 64-bit shadow entry. `mark` is bit 9: PT_SHADOW_IO_MARK in a leaf, PT_SHADOW_PS_MARK in a
      directory entry. `sw` and `su` are bits 10 and 11 (PT_SHADOW_WRITABLE/USER_MASK). `frame` is
      bits 12 to 51: a page of the pool in a directory entry, a host frame in a present leaf, the
      guest frame in an I/O leaf. */
  datatype Ent = Ent(p: bool, w: bool, u: bool, g: bool, mark: bool, sw: bool, su: bool,
                     attr: Attr, frame: nat)

  const NO_ATTR := Attr(false, false, false, false, false, false)
  const ZERO := Ent(false, false, false, false, false, false, false, NO_ATTR, 0)

  /** A guest entry, 4 or 8 bytes wide. `ps` is bit 7 (page size in a directory entry, PAT in a
      page-table entry); `frame` is everything from bit 12 up. A 4-byte entry has `nx` false. */
  datatype GuestEnt = GuestEnt(p: bool, w: bool, u: bool, pwt: bool, pcd: bool, accessed: bool,
                               dirty: bool, ps: bool, g: bool, nx: bool, frame: nat)

  /** PT_PTE_COPY_MASK */
  function CopyPte(e: GuestEnt): Ent {
    Ent(e.p, false, false, e.g, false, false, false, Attr(e.pwt, e.pcd, e.accessed, e.dirty, e.ps, e.nx), 0)
  }

  /** PT_NON_PTE_COPY_MASK */
  function CopyPde(e: GuestEnt): Ent {
    Ent(e.p, false, false, false, false, false, false, Attr(e.pwt, e.pcd, e.accessed, e.dirty, false, e.nx), 0)
  }

  /** The entry `set_pde` starts from: the PAT bit of a large page is bit 12. */
  function CopyLarge(e: GuestEnt): Ent {
    var c := CopyPde(e);
    c.(attr := c.attr.(pat := e.frame % 2 == 1))
  }

  /** The entry `set_pte_common` makes of `e0`: `hit` is the host frame behind the guest frame, if a
      slot covers it; otherwise the entry becomes an I/O mark. */
  function Leaf(e0: Ent, hit: Option<nat>, gfn: nat, dirty: bool, w: bool, u: bool): Ent {
    var e := e0.(sw := w, su := u, w := w && dirty, u := u);
    match hit
    case Some(f) => e.(frame := f)
    case None => e.(frame := gfn, mark := true, p := false)
  }

  /** PT64_INDEX: the nine address bits that index a table of 512 entries at `level`. */
  function Index64(addr: nat, level: nat): (i: nat)
    ensures i < 512
  {
    if level <= 1 then addr / 0x1000 % 512
    else if level == 2 then addr / 0x20_0000 % 512
    else if level == 3 then addr / 0x4000_0000 % 512
    else addr / 0x80_0000_0000 % 512
  }

  /** `fix_read_pf`: a page shadowed for the kernel only is handed back to user mode. */
  function FixRead(e: Ent): (r: (Ent, bool))
  {
    if e.su && !e.u then (e.(u := true, w := false), true) else (e, false)
  }

  /** `may_access` */
  predicate MayAccess(e: Ent, write: bool, user: bool) {
    (user ==> e.u) && (write ==> e.w)
  }

  /** What the processor allows through a leaf: the shadow CR0.WP is always set. */
  predicate HwAllows(e: Ent, write: bool, user: bool) {
    e.p && MayAccess(e, write, user)
  }
}
