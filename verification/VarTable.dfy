/** What the compiler records about stack cells and about variables. */
module VarTable {
  import opened Wam

  datatype Entry = Nil | Vo(v: nat) | Other(t: Term)

  datatype VarInf = VarInf(
    firstocc: int,
    istoplevinhead: bool,
    lastocc: int,
    noccurences: nat,
    pvnum: nat,
    home: int,
    usecnt: nat,
    target: int,
    unsafe: bool)

  predicate Live(i: VarInf) {
    0 < i.usecnt < i.noccurences
  }

  const LASTREG := 0

  /** The register that model cell `n` is addressed from. */
  function IndexOf(modelE: int, modelEend: int, permanent: bool, n: int): Base {
    if n <= LASTREG then REGS
    else if n >= modelE then EREG
    else if n >= modelEend && permanent then EREG
    else SPREG
  }

  /** Register and displacement of model cell `n`, whose variable may be a permanent one. */
  function OperandOf(modelE: int, modelEend: int, modelSP: int, permanent: bool, n: int): Loc {
    match IndexOf(modelE, modelEend, permanent, n)
    case REGS => Loc(REGS, n)
    case EREG => Loc(EREG, n - modelE)
    case SPREG => Loc(SPREG, n - modelSP)
  }
}
