/** src/lib/logNum.ts: a probability held as its natural logarithm.  The
    float arithmetic on it is not modelled: every operation the rest of the
    system applies comes in as an uninterpreted function value in `Arith`,
    and values are only passed along, except for one test, "is the
    probability zero", which reads the logarithm `-Infinity`. */
module LogNums {

  /** An IEEE double as far as this model needs one. */
  datatype Float = Finite(value: real) | PosInf | NegInf | NaN

  /** `new LogNum(data)` (also `LogNum.fromExp(data)`): `log` is the natural
      logarithm of the number represented. */
  datatype LogNum = FromExp(log: Float)

  /** `toLog() === -Infinity`: the number represented is zero. */
  predicate IsZero(x: LogNum) {
    x.log == NegInf
  }

  /** The log-space operations the modelled code calls, left uninterpreted:
      `LogNum.from(n)`, `a.add(b)`, `LogNum.sum`, `a.sub(b)`, `a.mul(b)`, `LogNum.prod`,
      `LogNum.fromZipf` and `LogNum.binomialPValue(k, n, p)`. */
  datatype Arith = Arith(
    from: nat -> LogNum,
    add: (LogNum, LogNum) -> LogNum,
    sum: seq<LogNum> -> LogNum,
    sub: (LogNum, LogNum) -> LogNum,
    mul: (LogNum, LogNum) -> LogNum,
    prod: seq<LogNum> -> LogNum,
    fromZipf: real -> LogNum,
    binomialPValue: (nat, nat, LogNum) -> LogNum)
}
