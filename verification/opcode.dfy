/**
 * The stand-alone opcode enum of the RFC 6455 codec: the six opcodes that section 5.2 of
 * RFC 6455 defines, each with its 4-bit code. Unlike the enums nested in the frame
 * decoders it has no RESERVED constant: looking up any other value throws.
 */
module OpCodes {
  import opened Wrappers

  datatype OpCode = Continuation | Text | Binary | Close | Ping | Pong

  /** ALL, in declaration order. */
  const All: seq<OpCode> := [Continuation, Text, Binary, Close, Ping, Pong]

  /** The code given to each constant's constructor. */
  function AsNumber(op: OpCode): (code: nat)
    ensures code in {0x0, 0x1, 0x2, 0x8, 0x9, 0xA}
  {
    match op
    case Continuation => 0x0
    case Text => 0x1
    case Binary => 0x2
    case Close => 0x8
    case Ping => 0x9
    case Pong => 0xA
  }

  /** The first of `ops` whose code is `value` (a stream filter followed by findFirst). */
  function FirstWithCode(ops: seq<OpCode>, value: int): (r: Option<OpCode>)
    ensures r.Some? ==> r.value in ops && AsNumber(r.value) == value
    ensures r.None? <==> forall op :: op in ops ==> AsNumber(op) != value
  {
    if ops == [] then None
    else if AsNumber(ops[0]) == value then Some(ops[0])
    else FirstWithCode(ops[1..], value)
  }

  /**
   * fromValue: the constant with the given code; orElseThrow makes a miss a
   * NoSuchElementException, modelled as None.
   */
  function FromValue(value: int): (r: Option<OpCode>)
    ensures r.Some? ==> AsNumber(r.value) == value
    ensures r.None? <==> value !in {0x0, 0x1, 0x2, 0x8, 0x9, 0xA}
  {
    var r := FirstWithCode(All, value);
    assert r.None? ==> forall op: OpCode :: AsNumber(op) != value by {
      if r.None? {
        forall op: OpCode ensures AsNumber(op) != value {
          assert op == All[0] || op == All[1] || op == All[2] || op == All[3] || op == All[4] || op == All[5];
        }
      }
    }
    r
  }

  /** The six codes are pairwise distinct. */
  lemma AsNumberInjective(a: OpCode, b: OpCode)
    ensures AsNumber(a) == AsNumber(b) ==> a == b
  {
  }

  /** Looking up a constant's own code gives that constant back. */
  lemma FromValueOfAsNumber(op: OpCode)
    ensures FromValue(AsNumber(op)) == Some(op)
  {
    AsNumberInjective(op, FromValue(AsNumber(op)).value);
  }
}
