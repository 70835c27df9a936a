/**
 * The Harmony transpiler on Program.DrawMenuBar (ModMenuPatcher.Transpiler): scan the IL from
 * the end towards the start for a call to ImGui.EndMenu, and insert a call to InjectModMenu four
 * slots after the first one met (the last one in program order). When there is none the IL is
 * returned as it was and the injection is recorded as failed.
 */
module SpliceInjector {
  import opened Wrappers

  datatype OpCode = Call | Callvirt | OtherOp(mnemonic: string)

  /** The methods the transpiler tells apart; any other method is OtherMethod. */
  datatype MethodRef = EndMenu | InjectModMenu | OtherMethod(fullName: string)

  /** operand is None when the instruction's operand is not a MethodInfo. */
  datatype Instruction = Instruction(opcode: OpCode, operand: Option<MethodRef>)

  /** The instruction inserted: call ModMenuPatcher.InjectModMenu. */
  const InjectCall := Instruction(Call, Some(InjectModMenu))

  /** How many slots after the anchor the call goes. */
  const InjectOffset := 4

  /** A call or callvirt whose operand is ImGui.EndMenu. */
  predicate IsAnchor(ins: Instruction) {
    (ins.opcode == Call || ins.opcode == Callvirt) && ins.operand == Some(EndMenu)
  }

  /** The largest index of an anchor, if there is one. */
  function LastAnchor(codes: seq<Instruction>): (r: Option<nat>)
    ensures r.Some? ==> r.value < |codes| && IsAnchor(codes[r.value])
    ensures r.Some? ==> forall j :: r.value < j < |codes| ==> !IsAnchor(codes[j])
    ensures r.None? <==> forall j :: 0 <= j < |codes| ==> !IsAnchor(codes[j])
  {
    if codes == [] then None
    else if IsAnchor(codes[|codes| - 1]) then Some(|codes| - 1)
    else LastAnchor(codes[..|codes| - 1])
  }

  function InsertAt(s: seq<Instruction>, k: nat, x: Instruction): seq<Instruction>
    requires k <= |s|
  {
    s[..k] + [x] + s[k..]
  }

  /** What the transpiler does with the IL. InsertOutOfRange is List.Insert throwing
      ArgumentOutOfRangeException because the anchor is among the last three instructions. */
  datatype SpliceOutcome =
    | Injected(codes: seq<Instruction>, anchor: nat)
    | AnchorNotFound
    | InsertOutOfRange(index: nat)

  function Splice(codes: seq<Instruction>): (r: SpliceOutcome)
    ensures r.AnchorNotFound? <==> forall j :: 0 <= j < |codes| ==> !IsAnchor(codes[j])
    ensures r.Injected? ==>
      && LastAnchor(codes) == Some(r.anchor) && r.anchor + InjectOffset <= |codes|
      && r.codes == InsertAt(codes, r.anchor + InjectOffset, InjectCall)
    ensures LastAnchor(codes).Some? ==> (r.Injected? <==> LastAnchor(codes).value + InjectOffset <= |codes|)
    ensures r.InsertOutOfRange? ==>
      LastAnchor(codes).Some? && r.index == LastAnchor(codes).value + InjectOffset > |codes|
  {
    match LastAnchor(codes)
    case None => AnchorNotFound
    case Some(i) =>
      if i + InjectOffset <= |codes| then Injected(InsertAt(codes, i + InjectOffset, InjectCall), i)
      else InsertOutOfRange(i + InjectOffset)
  }

  /** The reverse scan of ModMenuPatcher.Transpiler, on a local copy of the instruction list. */
  method SpliceInstructions(instructions: seq<Instruction>) returns (outcome: SpliceOutcome)
    ensures outcome == Splice(instructions)
  {
    var codes := instructions;
    var injected := false;
    var endMenuCount := 0;
    outcome := AnchorNotFound;
    var i := |codes| - 1;
    while i >= 0
      invariant -1 <= i < |codes|
      invariant codes == instructions && endMenuCount == 0
      invariant forall j :: i < j < |codes| ==> !IsAnchor(codes[j])
    {
      if IsAnchor(codes[i]) {
        endMenuCount := endMenuCount + 1;
        if endMenuCount == 1 {
          assert LastAnchor(instructions) == Some(i);
          if i + InjectOffset > |codes| {
            return InsertOutOfRange(i + InjectOffset);
          }
          codes := codes[..i + InjectOffset] + [InjectCall] + codes[i + InjectOffset..];
          injected := true;
          outcome := Injected(codes, i);
          break;
        }
      }
      i := i - 1;
    }
    if !injected {
      assert LastAnchor(instructions) == None;
    }
  }

  // ---------------------------------------------------------------- properties

  /** List.Insert(k, x): the list gets one longer, x sits at k, taking it out gives the list back
      with its order, and the multiset gains exactly x. */
  lemma InsertAtShape(s: seq<Instruction>, k: nat, x: Instruction)
    requires k <= |s|
    ensures var out := InsertAt(s, k, x);
      && |out| == |s| + 1 && out[k] == x
      && out[..k] + out[k + 1..] == s
      && multiset(out) == multiset(s) + multiset{x}
  {
    var out := InsertAt(s, k, x);
    assert out[..k] == s[..k];
    assert out[k + 1..] == s[k..];
    assert s == s[..k] + s[k..];
  }

  /** Only the last anchor matters: whatever comes before a stretch that holds an anchor, even
      more calls to EndMenu, does not move the splice point. */
  lemma {:induction false} EarlierAnchorsIgnored(prefix: seq<Instruction>, rest: seq<Instruction>)
    requires LastAnchor(rest).Some?
    ensures LastAnchor(prefix + rest) == Some(|prefix| + LastAnchor(rest).value)
  {
    var n := |rest|;
    if !IsAnchor(rest[n - 1]) {
      assert (prefix + rest)[..|prefix| + n - 1] == prefix + rest[..n - 1];
      EarlierAnchorsIgnored(prefix, rest[..n - 1]);
    }
  }

  /** Only call/callvirt to EndMenu counts: overwriting a non-anchor instruction with another
      non-anchor (another opcode on EndMenu, a call to another method) never moves the splice point. */
  lemma {:induction false} NonAnchorsIgnored(codes: seq<Instruction>, k: nat, x: Instruction)
    requires k < |codes| && !IsAnchor(x) && !IsAnchor(codes[k])
    ensures LastAnchor(codes[k := x]) == LastAnchor(codes)
  {
    var n := |codes|;
    if k < n - 1 && !IsAnchor(codes[n - 1]) {
      assert codes[k := x][..n - 1] == codes[..n - 1][k := x];
      NonAnchorsIgnored(codes[..n - 1], k, x);
    }
  }

  /** Examples: one EndMenu call far enough from the end gets the call exactly four slots later;
      a ldftn of EndMenu is not an anchor. */
  lemma SpliceExamples()
    ensures var a := Instruction(Callvirt, Some(EndMenu));
      var n := Instruction(OtherOp("nop"), None);
      Splice([a, n, n, n, n]) == Injected([a, n, n, n, InjectCall, n], 0)
    ensures Splice([Instruction(OtherOp("ldftn"), Some(EndMenu)), Instruction(Call, Some(OtherMethod("ImGui.BeginMenu")))])
      == AnchorNotFound
    ensures Splice([Instruction(Call, Some(EndMenu)), Instruction(OtherOp("ret"), None)]) == InsertOutOfRange(4)
  {
    var a := Instruction(Callvirt, Some(EndMenu));
    var n := Instruction(OtherOp("nop"), None);
    var codes := [a, n, n, n, n];
    assert IsAnchor(codes[0]) && forall j :: 0 < j < 5 ==> !IsAnchor(codes[j]);
    assert LastAnchor(codes) == Some(0);
    assert InsertAt(codes, 4, InjectCall) == [a, n, n, n, InjectCall, n];
    var last := [Instruction(Call, Some(EndMenu)), Instruction(OtherOp("ret"), None)];
    assert IsAnchor(last[0]) && !IsAnchor(last[1]);
  }
}
