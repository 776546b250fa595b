/** The system-call filter of the container init: a classic BPF program built from a deny list, and
    what running it decides. */
module Seccomp {
  import opened Options

  type Word = w: int | 0 <= w < 0x1_0000_0000 witness 0

  const KillProcess: Word := 0x8000_0000
  const ErrnoEPERM: Word := 0x0005_0001
  const Allow: Word := 0x7fff_0000
  const X32Bit: Word := 0x4000_0000

  datatype Insn =
    | Load(offset: nat)
    | JumpEq(k: Word, jt: nat, jf: nat)
    | JumpGe(k: Word, jt: nat, jf: nat)
    | Return(k: Word)

  /** The part of the system call the filter may look at. */
  datatype Data = Data(nr: Word, arch: Word)

  // ---------- the machine ----------

  /** Runs a program from `pc`; None when it falls off the end or loads what is not there. */
  function Run(prog: seq<Insn>, pc: nat, acc: Word, data: Data): Option<Word>
    decreases |prog| - pc
  {
    if pc >= |prog| then None
    else match prog[pc]
      case Load(offset) =>
        if offset == 0 then Run(prog, pc + 1, data.nr, data)
        else if offset == 4 then Run(prog, pc + 1, data.arch, data)
        else None
      case JumpEq(k, jt, jf) => Run(prog, pc + 1 + if acc == k then jt else jf, acc, data)
      case JumpGe(k, jt, jf) => Run(prog, pc + 1 + if acc >= k then jt else jf, acc, data)
      case Return(k) => Some(k)
  }

  /** What the kernel demands of a program before it runs it: it ends in a return, and every jump
      lands inside. */
  ghost predicate Acceptable(prog: seq<Insn>) {
    && |prog| > 0 && prog[|prog| - 1].Return?
    && forall i :: 0 <= i < |prog| ==> LandsInside(prog, i)
  }

  predicate LandsInside(prog: seq<Insn>, i: nat)
    requires i < |prog|
  {
    match prog[i]
    case Load(offset) => (offset == 0 || offset == 4) && i + 1 < |prog|
    case JumpEq(_, jt, jf) => i + 1 + jt < |prog| && i + 1 + jf < |prog|
    case JumpGe(_, jt, jf) => i + 1 + jt < |prog| && i + 1 + jf < |prog|
    case Return(_) => true
  }

  lemma {:induction false} AcceptableReturns(prog: seq<Insn>, pc: nat, acc: Word, data: Data)
    requires Acceptable(prog) && pc < |prog|
    ensures Run(prog, pc, acc, data).Some?
    decreases |prog| - pc
  {
    assert LandsInside(prog, pc);
    match prog[pc]
    case Load(offset) => AcceptableReturns(prog, pc + 1, if offset == 0 then data.nr else data.arch, data);
    case JumpEq(k, jt, jf) => AcceptableReturns(prog, pc + 1 + if acc == k then jt else jf, acc, data);
    case JumpGe(k, jt, jf) => AcceptableReturns(prog, pc + 1 + if acc >= k then jt else jf, acc, data);
    case Return(_) =>
  }

  // ---------- the decision it stands for ----------

  function Decision(native: Word, amd64: bool, deny: seq<Word>, data: Data): Word {
    if data.arch != native then 0x8000_0000                     // kill the process
    else if amd64 && data.nr >= 0x4000_0000 then 0x8000_0000    // the x32 numbers
    else if data.nr in deny then 0x0005_0001                    // fail with EPERM
    else 0x7fff_0000                                            // allow
  }

  // ---------- building it ----------

  function Head(native: Word, amd64: bool): seq<Insn> {
    [Load(4), JumpEq(native, 1, 0), Return(KillProcess), Load(0)] +
    if amd64 then [JumpGe(X32Bit, 0, 1), Return(KillProcess)] else []
  }

  /** The checks of a deny list start at `base`: two instructions each, then the final verdict. */
  ghost predicate ChecksAt(prog: seq<Insn>, base: nat, deny: seq<Word>) {
    && |prog| == base + 2 * |deny| + 1
    && (forall i :: 0 <= i < |deny| ==>
          prog[base + 2 * i] == JumpEq(deny[i], 0, 1) && prog[base + 2 * i + 1] == Return(ErrnoEPERM))
    && prog[|prog| - 1] == Return(Allow)
  }

  method BuildFilter(native: Word, amd64: bool, deny: seq<Word>) returns (filter: seq<Insn>)
    ensures |filter| == (if amd64 then 7 else 5) + 2 * |deny|
    ensures Acceptable(filter)
    ensures forall data :: Run(filter, 0, 0, data) == Some(Decision(native, amd64, deny, data))
  {
    filter := [Load(4), JumpEq(native, 1, 0), Return(KillProcess), Load(0)];
    if amd64 {
      filter := filter + [JumpGe(X32Bit, 0, 1), Return(KillProcess)];
    }
    ghost var head := filter;
    for i := 0 to |deny|
      invariant |filter| == |head| + 2 * i && filter[..|head|] == head
      invariant forall j :: 0 <= j < i ==>
        filter[|head| + 2 * j] == JumpEq(deny[j], 0, 1) && filter[|head| + 2 * j + 1] == Return(ErrnoEPERM)
    {
      filter := filter + [JumpEq(deny[i], 0, 1), Return(ErrnoEPERM)];
    }
    filter := filter + [Return(Allow)];
    assert head == Head(native, amd64);
    assert ChecksAt(filter, |head|, deny);
    assert filter[..|head|] == head;
    FilterAcceptable(filter, native, amd64, deny);
    forall data ensures Run(filter, 0, 0, data) == Some(Decision(native, amd64, deny, data)) {
      FilterDecides(filter, native, amd64, deny, data);
    }
  }

  // ---------- it decides as it should ----------

  /** From check number `i` on, the program refuses exactly what the rest of the list denies. */
  lemma {:induction false} ChecksDecide(prog: seq<Insn>, base: nat, deny: seq<Word>, i: nat, data: Data)
    requires ChecksAt(prog, base, deny) && i <= |deny|
    ensures Run(prog, base + 2 * i, data.nr, data) == Some(if data.nr in deny[i..] then ErrnoEPERM else Allow)
    decreases |deny| - i
  {
    if i < |deny| {
      ChecksDecide(prog, base, deny, i + 1, data);
      assert deny[i..] == [deny[i]] + deny[i + 1..];
      assert prog[base + 2 * i] == JumpEq(deny[i], 0, 1) && prog[base + 2 * i + 1] == Return(ErrnoEPERM);
    }
  }

  lemma {:induction false} FilterDecides(prog: seq<Insn>, native: Word, amd64: bool, deny: seq<Word>, data: Data)
    requires ChecksAt(prog, |Head(native, amd64)|, deny) && prog[..|Head(native, amd64)|] == Head(native, amd64)
    ensures Run(prog, 0, 0, data) == Some(Decision(native, amd64, deny, data))
  {
    var head := Head(native, amd64);
    assert forall i :: 0 <= i < |head| ==> prog[i] == head[i];
    ChecksDecide(prog, |head|, deny, 0, data);
    assert deny[0..] == deny;
    assert Run(prog, 0, 0, data) == Run(prog, 1, data.arch, data);
    if data.arch == native {
      assert Run(prog, 1, data.arch, data) == Run(prog, 3, data.arch, data) == Run(prog, 4, data.nr, data);
      assert |head| + 2 * 0 == |head|;
      assert amd64 ==> Run(prog, 4, data.nr, data) == Run(prog, if data.nr >= X32Bit then 5 else 6, data.nr, data);
    } else {
      assert Run(prog, 1, data.arch, data) == Run(prog, 2, data.arch, data);
    }
  }

  lemma {:induction false} FilterAcceptable(prog: seq<Insn>, native: Word, amd64: bool, deny: seq<Word>)
    requires ChecksAt(prog, |Head(native, amd64)|, deny) && prog[..|Head(native, amd64)|] == Head(native, amd64)
    ensures Acceptable(prog)
  {
    var head := Head(native, amd64);
    forall i | 0 <= i < |prog| ensures LandsInside(prog, i) {
      if i < |head| {
        assert prog[i] == head[i];
      } else if i < |prog| - 1 {
        var j := (i - |head|) / 2;
        assert i == |head| + 2 * j || i == |head| + 2 * j + 1;
        assert prog[|head| + 2 * j] == JumpEq(deny[j], 0, 1) && prog[|head| + 2 * j + 1] == Return(ErrnoEPERM);
      }
    }
  }

  // ---------- installing it ----------

  /** The length check before the program is handed to the kernel, whose length field has 16 bits. */
  function InstallLength(filter: seq<Insn>): (r: Option<nat>)
    ensures r.Some? <==> 1 <= |filter| <= 4096
    ensures r.Some? ==> r.value == |filter| < 0x1_0000
  {
    if |filter| < 1 || |filter| > 4096 then None else Some(|filter| % 0x1_0000)
  }

  /** A filter for a deny list is installed exactly when the list has at most 2045 calls (2044 on
      amd64), and then with its true length. */
  method Harden(native: Word, amd64: bool, deny: seq<Word>) returns (filter: seq<Insn>, len: Option<nat>)
    ensures len.Some? <==> |deny| <= if amd64 then 2044 else 2045
    ensures len.Some? ==> len.value == |filter|
    ensures Acceptable(filter)
    ensures forall data :: Run(filter, 0, 0, data) == Some(Decision(native, amd64, deny, data))
  {
    filter := BuildFilter(native, amd64, deny);
    len := InstallLength(filter);
  }
}
