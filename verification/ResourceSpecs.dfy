/** Resource amounts. A `ResourceSpec` on the wire is a uint32 of cores, a uint64 of megabytes and a
    uint32 of GPUs; `Amount` is the same triple without the width limits, so that sums over many jobs
    can be stated as plain integers and compared with what the machine arithmetic computes. */
module ResourceSpecs {

  const TWO_32: int := 0x1_0000_0000
  const TWO_64: int := 0x1_0000_0000_0000_0000

  datatype Amount = Amount(cpu: int, ram: int, gpu: int)

  const NOTHING: Amount := Amount(0, 0, 0)

  predicate InRange(a: Amount) {
    0 <= a.cpu < TWO_32 && 0 <= a.ram < TWO_64 && 0 <= a.gpu < TWO_32
  }

  type Resources = a: Amount | InRange(a) witness NOTHING

  /** Componentwise `<=`, the test the scheduler and the resource manager both make. */
  predicate Fits(req: Amount, avail: Amount) {
    req.cpu <= avail.cpu && req.ram <= avail.ram && req.gpu <= avail.gpu
  }

  function Plus(a: Amount, b: Amount): Amount {
    Amount(a.cpu + b.cpu, a.ram + b.ram, a.gpu + b.gpu)
  }

  function Minus(a: Amount, b: Amount): Amount {
    Amount(a.cpu - b.cpu, a.ram - b.ram, a.gpu - b.gpu)
  }

  /** Unsigned subtraction as the machine does it: modulo 2^32 and 2^64. */
  function WrapMinus(a: Resources, b: Resources): Resources {
    Amount((a.cpu - b.cpu) % TWO_32, (a.ram - b.ram) % TWO_64, (a.gpu - b.gpu) % TWO_32)
  }

  function WrapPlus(a: Resources, b: Resources): Resources {
    Amount((a.cpu + b.cpu) % TWO_32, (a.ram + b.ram) % TWO_64, (a.gpu + b.gpu) % TWO_32)
  }

  /** The widths of the wire format: 32 bits for cores and GPUs and 64 for megabytes. Taking 1 from nothing gives
      the largest amount there is, and adding it back gives nothing. */
  lemma WrapsAtWireWidth(a: Amount)
    ensures var most := Amount(4294967295, 18446744073709551615, 4294967295);
            && (InRange(a) <==> Fits(NOTHING, a) && Fits(a, most))
            && WrapMinus(NOTHING, Amount(1, 1, 1)) == most
            && WrapPlus(most, Amount(1, 1, 1)) == NOTHING
  {
  }

  /** Unsigned subtraction is exact precisely when no component is taken below zero. */
  lemma WrapMinusExact(a: Resources, b: Resources)
    ensures WrapMinus(a, b) == Minus(a, b) <==> Fits(b, a)
  {
  }
}
