/** The byte-addressed memory of the machine. */
module Memory {

  ghost predicate Total(m: imap<nat, nat>) {
    forall a: nat :: a in m && m[a] < 256
  }

  type Mem = m: imap<nat, nat> | Total(m) ghost witness imap a: nat :: 0

  function Pow256(n: nat): (p: nat)
    ensures p > 0
  {
    if n == 0 then 1 else 256 * Pow256(n - 1)
  }

  /** The n bytes from `addr` read as one big-endian number. */
  ghost function ReadBE(m: Mem, addr: nat, n: nat): nat {
    if n == 0 then 0 else 256 * ReadBE(m, addr, n - 1) + m[addr + n - 1]
  }

  /** The memory after the low n bytes of `v` were written big-endian at `addr`. */
  ghost function WriteBE(m: Mem, addr: nat, n: nat, v: nat): Mem {
    imap a: nat :: if addr <= a < addr + n then v / Pow256(addr + n - 1 - a) % 256 else m[a]
  }
}
