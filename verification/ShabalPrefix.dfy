/** The precomputed initial state of Shabal-256: two prefix blocks from the zero state. */
module ShabalPrefix {
  import opened Words
  import opened Shabal
  import opened ShabalReference
  import opened PrefixNumbers

  function FirstX(): (x: seq<word>)
    ensures |x| == 60
  {
    seq(60, j requires 0 <= j < 60 => FirstA(j))
  }

  function FirstY(): (y: seq<word>)
    ensures |y| == 64
  {
    seq(64, j requires 0 <= j < 64 => FirstB(j))
  }

  /** The first prefix block. */
  function FirstBlock(): (m: seq<word>)
    ensures |m| == 16
  {
    seq(16, i requires 0 <= i < 16 => FirstM(i))
  }

  function FirstRegister(): (c: seq<word>)
    ensures |c| == 16
  {
    seq(16, i requires 0 <= i < 16 => FirstC(i))
  }

  lemma FirstTraces()
    ensures Traces(FirstX(), FirstY(), FirstRegister(), FirstBlock())
  {
    hide EltA, EltB, FirstA, FirstB, FirstC, FirstM;
    forall j | 0 <= j < 48 ensures StepAt(FirstX(), FirstY(), FirstRegister(), FirstBlock(), j) {
      FirstRowAt(j);
    }
  }

  function SecondX(): (x: seq<word>)
    ensures |x| == 60
  {
    seq(60, j requires 0 <= j < 60 => SecondA(j))
  }

  function SecondY(): (y: seq<word>)
    ensures |y| == 64
  {
    seq(64, j requires 0 <= j < 64 => SecondB(j))
  }

  /** The second prefix block. */
  function SecondBlock(): (m: seq<word>)
    ensures |m| == 16
  {
    seq(16, i requires 0 <= i < 16 => SecondM(i))
  }

  function SecondRegister(): (c: seq<word>)
    ensures |c| == 16
  {
    seq(16, i requires 0 <= i < 16 => SecondC(i))
  }

  lemma SecondTraces()
    ensures Traces(SecondX(), SecondY(), SecondRegister(), SecondBlock())
  {
    hide EltA, EltB, SecondA, SecondB, SecondC, SecondM;
    forall j | 0 <= j < 48 ensures StepAt(SecondX(), SecondY(), SecondRegister(), SecondBlock(), j) {
      SecondRowAt(j);
    }
  }

  // ---- the initial state ----

  function Zeros(n: nat): (z: seq<word>)
    ensures |z| == n
  {
    seq(n, _ => 0)
  }

  /** Before the prefix: zeros, and the counter at -1. */
  function ZeroState(): (s: Chain)
    ensures s.Valid()
  {
    Chain(Zeros(12), Zeros(16), Zeros(16), 0xFFFF_FFFF, 0xFFFF_FFFF)
  }

  /** After the first prefix block. */
  function MiddleState(): (s: Chain)
    ensures s.Valid()
  {
    Chain(FirstX()[48..], SubVec(Zeros(16), FirstBlock()), FirstY()[48..], 0, 0)
  }

  /** Sixteen words that count on from `first`. */
  function Counting(first: word): (m: seq<word>)
    ensures |m| == 16
  {
    seq(16, i requires 0 <= i < 16 => CountFrom(first, i))
  }

  function CountFrom(first: word, i: nat): word {
    if i == 0 then first else CountFrom(first, i - 1) + 1
  }

  lemma FirstCounts()
    ensures FirstBlock() == Counting(0x100)
  {
    assert FirstM(0) == 0x100;
    hide FirstM;
    forall i | 0 <= i < 16 ensures FirstM(i) == CountFrom(0x100, i) {
      FirstCountAt(i);
    }
  }

  lemma {:induction false} FirstCountAt(i: nat)
    requires i < 16
    ensures FirstM(i) == CountFrom(0x100, i)
  {
    if i == 0 {
    } else {
      FirstCountAt(i - 1);
      CountsAt(i - 1);
      hide FirstM;
    }
  }

  lemma SecondCounts()
    ensures SecondBlock() == Counting(0x110)
  {
    hide FirstM, SecondM;
    forall i | 0 <= i < 16 ensures SecondM(i) == CountFrom(0x110, i) {
      FirstCountAt(i);
      FurtherAt(i);
      CountsFurtherOn(i);
    }
  }

  lemma {:induction false} CountsFurtherOn(i: nat)
    ensures CountFrom(0x110, i) == CountFrom(0x100, i) + 0x10
  {
    if i == 0 {
    } else {
      CountsFurtherOn(i - 1);
    }
  }

  lemma XorZero(x: word)
    ensures Xor(x, 0) == x && Xor(0, x) == x
  {
  }

  lemma ZeroPlus(x: word)
    ensures Plus(0, x) == x && Plus(x, 0) == x
  {
    hide IsDifference;
  }

  lemma FirstStart()
    ensures FirstX()[..12] == XorW(Zeros(12), 0xFFFF_FFFF, 0xFFFF_FFFF)
    ensures FirstY()[..16] == RotB(AddVec(Zeros(16), FirstBlock()))
    ensures FirstRegister() == Zeros(16)
  {
    hide Xor, Plus, IsSum, IsDifference, Rot17, FirstM, FirstA0, FirstA1, FirstA2, FirstA3, FirstA4, FirstB0,
         FirstB1, FirstB2, FirstB3;
    XorZero(0xFFFF_FFFF);
    forall i | 0 <= i < 12 ensures FirstX()[i] == if i < 2 then 0xFFFF_FFFF else 0 {
      ZeroAt(i);
    }
    forall i | 0 <= i < 16 ensures FirstY()[i] == Rot17(Plus(0, FirstM(i))) {
      FirstInAt(i);
      ZeroPlus(FirstM(i));
    }
  }

  lemma FirstStep()
    ensures Block(ZeroState(), FirstBlock()) == MiddleState()
  {
    hide Xor, Plus, IsSum, IsDifference, Rot17, AddElts, Block, Traces, FirstA, FirstB, FirstM, SubVec;
    FirstTraces();
    FirstStart();
    BlockIs(ZeroState(), FirstBlock(), FirstX(), FirstY());
    var a := FirstX()[48..];
    forall i | 0 <= i < 12 ensures AddElts(36, a, Zeros(16))[i] == a[i] {
      AddEltsIs(a, Zeros(16), i);
      ZeroPlus(a[i]);
    }
    assert AddElts(36, a, Zeros(16)) == a;
    TickIs(Chain(a, SubVec(Zeros(16), FirstBlock()), FirstY()[48..], 0xFFFF_FFFF, 0xFFFF_FFFF));
  }

  lemma SecondStart()
    ensures SecondX()[..12] == XorW(MiddleState().a, 0, 0)
    ensures SecondY()[..16] == RotB(AddVec(MiddleState().b, SecondBlock()))
    ensures SecondRegister() == MiddleState().c
  {
    hide Xor, Plus, Minus, IsSum, IsDifference, Rot17, FirstM, SecondM, FirstA4, FirstB3, SecondB0;
    XorZero(FirstA4(0));
    XorZero(FirstA4(1));
    forall i | 0 <= i < 16 ensures SecondY()[i] == Rot17(Plus(Minus(0, FirstM(i)), SecondM(i))) {
      SecondInAt(i);
    }
  }

  lemma InitLengths()
    ensures |A_INIT_256| == 12 && |B_INIT_256| == 16 && |C_INIT_256| == 16
  {
  }

  lemma SecondEnd()
    ensures AddElts(36, SecondX()[48..], SecondRegister()) == A_INIT_256
    ensures SubVec(SecondRegister(), SecondBlock()) == B_INIT_256
    ensures SecondY()[48..] == C_INIT_256
  {
    InitLengths();
    hide Plus, Minus, IsSum, IsDifference, AddElts, SecondM, FirstB3, SecondA4, SecondB3, A_INIT_256, B_INIT_256,
         C_INIT_256;
    forall i | 0 <= i < 12 ensures AddElts(36, SecondX()[48..], SecondRegister())[i] == A_INIT_256[i] {
      AddEltsIs(SecondX()[48..], SecondRegister(), i);
      SumsOutAt(i);
    }
    forall i | 0 <= i < 16
      ensures SubVec(SecondRegister(), SecondBlock())[i] == B_INIT_256[i] && SecondY()[48..][i] == C_INIT_256[i]
    {
      DifferencesOutAt(i);
      LastOutAt(i);
    }
  }

  lemma SecondStep()
    ensures Block(MiddleState(), SecondBlock()) == Init256()
  {
    hide Xor, AddElts, Block, Traces, RotB, AddVec, SubVec, SecondX, SecondY, SecondBlock, SecondRegister,
         A_INIT_256, B_INIT_256, C_INIT_256;
    SecondTraces();
    SecondStart();
    BlockIs(MiddleState(), SecondBlock(), SecondX(), SecondY());
    SecondEnd();
    TickIs(Chain(A_INIT_256, B_INIT_256, C_INIT_256, 0, 0));
  }

  /** The precomputed initial state is what the two prefix blocks, the words 256 to 287, make of the zero state. */
  lemma InitialState()
    ensures Block(Block(ZeroState(), Counting(0x100)), Counting(0x110)) == Init256()
  {
    hide *;
    FirstCounts();
    SecondCounts();
    FirstStep();
    SecondStep();
  }
}
