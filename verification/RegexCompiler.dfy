/** regcomp's two passes: reg, regbranch, regpiece and regatom over global cursors,
    first counting bytes, then emitting and patching them in place. */
module RegexCompiler {
  import opened RegexSyntax
  import opened RegexLayout

  datatype Ptr = Null | Dummy | Code(addr: nat)

  datatype Flags = Flags(haswidth: bool, simple: bool, spstart: bool)

  class Compiler {
    const pat: Text
    var regparse: nat
    var regnpar: nat
    var dummy: bool          // regcode == &regdummy: count, do not emit
    var regcode: nat
    var regsize: nat
    var code: array<Byte>
    var error: Error

    /** The bytes of this pass; while only counting, just their number means anything. */
    ghost var out: seq<Byte>

    ghost predicate Valid()
      reads `dummy, `regsize, `regcode, `code, `out, code
    {
      && (dummy ==> regsize == |out|)
      && (!dummy ==> regcode == |out| <= code.Length < LIMIT && code[..regcode] == out)
    }

    /** Room for n more bytes. */
    ghost predicate Room(n: nat)
      reads `dummy, `code, `out
    {
      dummy || |out| + n <= code.Length
    }

    lemma Small()
      requires Valid()
      ensures !dummy ==> |out| <= code.Length < LIMIT
    {
    }

    /** The pointer that stands for address a in this pass. */
    function PtrTo(a: nat): Ptr
      reads `dummy
    {
      if dummy then Dummy else Code(a)
    }

    constructor (pat: Text)
      ensures Valid() && this.pat == pat && dummy && out == [] && regparse == 0 && regnpar == 1
      ensures code.Length == 0 && fresh(code)
    {
      this.pat := pat;
      regparse, regnpar, dummy, regcode, regsize := 0, 1, true, 0, 0;
      code := new Byte[0];
      error := JunkOnEnd;
      out := [];
    }

    /** Start the second pass, into a buffer of exactly the size counted. */
    method Restart()
      requires regsize < LIMIT
      modifies this
      ensures Valid() && !dummy && out == [] && regparse == 0 && regnpar == 1
      ensures code.Length == old(regsize) && fresh(code)
    {
      code := new Byte[regsize];
      regparse, regnpar, dummy, regcode := 0, 1, false, 0;
      out := [];
    }

    method RegC(b: Byte)
      requires Valid() && Room(1)
      modifies this`regcode, this`regsize, this`out, code
      ensures Valid() && Step(dummy, old(out), out, [b])
    {
      if !dummy {
        code[regcode] := b;
        regcode := regcode + 1;
      } else {
        regsize := regsize + 1;
      }
      out := out + [b];
    }

    method RegNode(op: Byte) returns (ret: Ptr)
      requires Valid() && Room(3)
      modifies this`regcode, this`regsize, this`out, code
      ensures Valid() && Step(dummy, old(out), out, Node(op, 0)) && ret == PtrTo(|old(out)|)
    {
      if dummy {
        regsize := regsize + 3;
        ret := Dummy;
      } else {
        ret := Code(regcode);
        code[regcode] := op;
        code[regcode + 1] := 0;
        code[regcode + 2] := 0;
        regcode := regcode + 3;
      }
      out := out + Node(op, 0);
    }

    method RegNext(p: Ptr) returns (r: Ptr)
      requires Valid() && !p.Null?
      requires dummy <==> p.Dummy?
      requires p.Code? ==> p.addr + 3 <= |out|
      requires p.Code? && Op(out, p.addr) == BACK ==> NextOff(out, p.addr) <= p.addr
      ensures p.Dummy? ==> r == Null
      ensures p.Code? ==>
        var off := NextOff(out, p.addr);
        r == if off == 0 then Null else if Op(out, p.addr) == BACK then Code(p.addr - off) else Code(p.addr + off)
    {
      if p.Dummy? {
        return Null;
      }
      assert out[p.addr] == code[p.addr] && out[p.addr + 1] == code[p.addr + 1] && out[p.addr + 2] == code[p.addr + 2];
      var offset: int := (code[p.addr + 1] as int) * 256 + code[p.addr + 2] as int;
      if offset == 0 {
        return Null;
      }
      if code[p.addr] == BACK {
        return Code(p.addr - offset);
      } else {
        return Code(p.addr + offset);
      }
    }

    /** Put a node before the operand that starts at a, moving the operand up. */
    method RegInsert(op: Byte, opnd: Ptr, ghost a: nat)
      requires Valid() && Room(3) && a <= |out| && opnd == PtrTo(a)
      modifies this`regcode, this`regsize, this`out, code
      ensures Valid() && out == old(out)[..a] + Node(op, 0) + old(out)[a..]
    {
      if dummy {
        regsize := regsize + 3;
      } else {
        var src := regcode;
        regcode := regcode + 3;
        var dst := regcode;
        while src > opnd.addr
          invariant a <= src <= |out| && dst == src + 3 && regcode == |out| + 3 <= code.Length
          invariant forall i :: 0 <= i < src ==> code[i] == out[i]
          invariant forall i :: dst <= i < regcode ==> code[i] == out[i - 3]
          modifies code
        {
          dst := dst - 1;
          src := src - 1;
          code[dst] := code[src];
        }
        code[opnd.addr] := op;
        code[opnd.addr + 1] := 0;
        code[opnd.addr + 2] := 0;
      }
      if !dummy {
        assert forall i :: 0 <= i < regcode ==> code[..regcode][i] == code[i];
        Shifted(out, code[..regcode], a, op);
      }
      out := out[..a] + Node(op, 0) + out[a..];
    }

    /** Set the dangling offset at the end of the chain that starts at a to reach v.
        The chain ends at t. */
    method RegTail(p: Ptr, val: Ptr, ghost a: nat, ghost v: nat, ghost t: nat)
      requires Valid() && p == PtrTo(a) && val == PtrTo(v)
      requires !dummy ==> Walks(out, a, t) && t < |out|
      requires !dummy ==> if Op(out, t) == BACK then v <= t else t <= v
      modifies this`out, code
      ensures Valid()
      ensures if dummy then out == old(out) else t + 3 <= |old(out)| && out == Linked(old(out), t, v)
    {
      if p == Dummy {
        return;
      }
      ghost var B := out;
      WalkEnds(B, a, t);
      var scan := LastNode(p, t);
      assert code[..regcode] == B && code[t] == B[t];
      var offset: int := if code[scan.addr] == BACK then scan.addr - val.addr else val.addr - scan.addr;
      code[scan.addr + 1] := (offset / 256) % 256;
      code[scan.addr + 2] := offset % 256;
      out := Linked(B, t, v);
    }

    /** The last node of the chain that starts at p. */
    method LastNode(p: Ptr, ghost t: nat) returns (scan: Ptr)
      requires Valid() && !dummy && p.Code? && Walks(out, p.addr, t)
      ensures scan == Code(t)
    {
      scan := p;
      while true
        invariant scan.Code? && Walks(out, scan.addr, t)
        decreases |out| - scan.addr
      {
        WalkEnds(out, scan.addr, t);
        var temp := RegNext(scan);
        if temp == Null {
          break;
        }
        scan := temp;
      }
    }

    /** RegTail on the operand of a BRANCH; nothing for any other node. */
    method RegOpTail(p: Ptr, val: Ptr, ghost a: nat, ghost v: nat, ghost t: nat)
      requires Valid() && (p == Null || p == PtrTo(a)) && val == PtrTo(v)
      requires p.Code? ==> a + 3 <= |out|
      requires p.Code? && Op(out, a) == BRANCH ==>
        Walks(out, a + 3, t) && t < |out| && if Op(out, t) == BACK then v <= t else t <= v
      modifies this`out, code
      ensures Valid()
      ensures if p.Code? && Op(old(out), a) == BRANCH
        then t + 3 <= |old(out)| && out == Linked(old(out), t, v)
        else out == old(out)
    {
      if p == Null || p == Dummy {
        return;
      }
      assert code[p.addr] == out[p.addr];
      if code[p.addr] != BRANCH {
        return;
      }
      RegTail(Code(p.addr + 3), val, a + 3, v, t);
    }

    /** The bracket group of regatom; the cursor is just after the opening bracket. */
    method RegClass() returns (ret: Ptr, flags: Flags)
      requires Valid() && regparse <= |pat|
      requires !dummy ==> var r := PClass(pat, regparse, regnpar); r.Ok? && Room(SizeP(r.val))
      modifies this`regparse, this`regcode, this`regsize, this`out, this`error, code
      ensures Valid()
      ensures var r := old(PClass(pat, regparse, regnpar));
        && (ret.Null? <==> r.Fail?)
        && (r.Fail? ==> error == r.error)
        && (r.Ok? ==>
          && regparse == r.pos && ret == PtrTo(|old(out)|) && Step(dummy, old(out), out, LayP(r.val, 0))
          && flags == Flags(true, true, false))
    {
      hide Node, Valid, ClassRest, Step, LayP;
      flags := Flags(false, false, false);
      ghost var a, op, lead := out, ClassOp(pat, regparse), ClassLead(pat, ClassStart(pat, regparse));
      ret := RegClassHead();
      ghost var c := out;
      ghost var R := ClassRest(pat, regparse);
      var ok := RegClassRest();
      if !ok {
        return Null, flags;
      }
      ghost var d := out;
      Then(dummy, a, c, Node(op, 0) + lead, d, R.val);
      assert Node(op, 0) + lead + R.val == Node(op, 0) + (lead + R.val);
      RegC(0);
      if At(pat, regparse) != RBRACK {
        error := UnmatchedBrackets;
        return Null, flags;
      }
      Then(dummy, a, d, Node(op, 0) + (lead + R.val), out, [0]);
      LayClass(lead + R.val);
      regparse := regparse + 1;
      flags := Flags(true, true, false);
    }

    /** Its opcode, and a leading bracket or dash. */
    method RegClassHead() returns (ret: Ptr)
      requires Valid() && regparse <= |pat| && Room(4)
      modifies this`regparse, this`regcode, this`regsize, this`out, code
      ensures Valid()
      ensures ret == PtrTo(|old(out)|)
      ensures var p := old(ClassStart(pat, regparse));
        && regparse == p + |ClassLead(pat, p)| <= |pat|
        && Step(dummy, old(out), out, Node(old(ClassOp(pat, regparse)), 0) + ClassLead(pat, p))
        && |out| == |old(out)| + 3 + |ClassLead(pat, p)|
    {
      hide Node, Valid, Step;
      ghost var a, op := out, ClassOp(pat, regparse);
      if At(pat, regparse) == CARET {
        ret := RegNode(ANYBUT);
        regparse := regparse + 1;
      } else {
        ret := RegNode(ANYOF);
      }
      ghost var b := out;
      StepSize(dummy, a, b, Node(op, 0));
      ghost var lead := ClassLead(pat, regparse);
      if At(pat, regparse) == RBRACK || At(pat, regparse) == DASH {
        RegC(At(pat, regparse));
        regparse := regparse + 1;
      } else {
        Nothing(dummy, b);
      }
      Then(dummy, a, b, Node(op, 0), out, lead);
    }

    /** The loop of the bracket group, up to the closing bracket. */
    method RegClassRest() returns (ok: bool)
      requires Valid() && regparse <= |pat|
      requires !dummy ==> var R := ClassRest(pat, regparse); R.Ok? && Room(|R.val|)
      modifies this`regparse, this`regcode, this`regsize, this`out, this`error, code
      ensures Valid()
      ensures var R := old(ClassRest(pat, regparse));
        && (ok <==> R.Ok?)
        && (R.Fail? ==> error == R.error)
        && (R.Ok? ==> regparse == R.pos <= |pat| && Step(dummy, old(out), out, R.val))
    {
      hide Valid, Range, Step;
      ghost var a := out;
      ghost var R := ClassRest(pat, regparse);
      ghost var acc: seq<Byte> := [];
      Nothing(dummy, a);
      while At(pat, regparse) != 0 && At(pat, regparse) != RBRACK
        invariant Valid() && regparse <= |pat|
        invariant Step(dummy, a, out, acc) && |out| == |a| + |acc|
        invariant Continues(R, acc, ClassRest(pat, regparse))
        modifies this`regparse, this`regcode, this`regsize, this`out, this`error, code
        decreases |pat| - regparse
      {
        ghost var b := out;
        ghost var item: seq<Byte>;
        ghost var S := ClassRest(pat, regparse);
        if At(pat, regparse) == DASH {
          regparse := regparse + 1;
          if At(pat, regparse) == RBRACK || At(pat, regparse) == 0 {
            RegC(DASH);
            item := [DASH];
          } else {
            if At(pat, regparse - 2) as int + 1 > At(pat, regparse) as int + 1 {
              error := InvalidRange;
              return false;
            }
            item := Range(At(pat, regparse - 2) + 1, At(pat, regparse));
            RegRange(At(pat, regparse - 2) as int + 1, At(pat, regparse) as int);
            regparse := regparse + 1;
          }
        } else {
          RegC(At(pat, regparse));
          item := [At(pat, regparse)];
          regparse := regparse + 1;
        }
        Then(dummy, a, b, acc, out, item);
        ContinueMore(R, acc, S, item, ClassRest(pat, regparse));
        acc := acc + item;
      }
      assert R.val == acc;
      return true;
    }

    /** The characters of a range, one by one. */
    method RegRange(first: int, classend: int)
      requires Valid() && 0 <= first && classend < 256 && Room(|Range(first, classend)|)
      modifies this`regcode, this`regsize, this`out, code
      ensures Valid() && Step(dummy, old(out), out, Range(first, classend))
    {
      hide Step, Valid;
      var classr := first;
      ghost var all := Range(first, classend);
      ghost var before := out;
      ghost var part: seq<Byte> := [];
      Nothing(dummy, before);
      while classr <= classend
        invariant Valid() && first <= classr && all == part + Range(classr, classend)
        invariant Step(dummy, before, out, part) && |out| == |before| + |part|
      {
        ghost var mid := out;
        RegC(classr);
        Then(dummy, before, mid, part, out, [classr]);
        part := part + [classr];
        classr := classr + 1;
      }
      assert all == part;
    }

    /** A run of literal characters; the cursor is on the first of them. */
    method RegRun() returns (ret: Ptr, flags: Flags)
      requires Valid() && regparse < |pat|
      requires Room(|RunFrom(pat, regparse, -1).str| + 4)
      modifies this`regparse, this`regcode, this`regsize, this`out, code
      ensures Valid()
      ensures var r := old(RunFrom(pat, regparse, -1));
        && regparse == r.pos && ret == PtrTo(|old(out)|) && Step(dummy, old(out), out, LayP(Exact(r.str), 0))
        && flags == Flags(true, !r.backed, false)
    {
      hide Node, Valid, Step, LayP, RunFrom;
      ghost var a := out;
      ret := RegNode(EXACTLY);
      ghost var b := out;
      StepSize(dummy, a, b, Node(EXACTLY, 0));
      ghost var str := RunFrom(pat, regparse, -1).str;
      var regprev := RegRunLoop();
      ghost var c := out;
      Then(dummy, a, b, Node(EXACTLY, 0), c, str);
      RegC(0);
      Then(dummy, a, c, Node(EXACTLY, 0) + str, out, [0]);
      LayExact(str);
      flags := Flags(true, regprev == -1, false);
    }

    /** The loop of the literal run; what comes back is the backup point, -1 if none. */
    method RegRunLoop() returns (regprev: int)
      requires Valid() && regparse < |pat|
      requires Room(|RunFrom(pat, regparse, -1).str|)
      modifies this`regparse, this`regcode, this`regsize, this`out, code
      ensures Valid()
      ensures var r := old(RunFrom(pat, regparse, -1));
        regparse == r.pos && Step(dummy, old(out), out, r.str) && (regprev == -1 <==> !r.backed)
    {
      hide Valid, Step;
      ghost var a := out;
      ghost var r := RunFrom(pat, regparse, -1);
      regprev := -1;
      ghost var acc: seq<Byte> := [];
      Nothing(dummy, a);
      while true
        invariant Valid() && Step(dummy, a, out, acc) && |out| == |a| + |acc|
        invariant regparse < |pat| && (regprev == -1 || 0 <= regprev <= regparse)
        invariant var S := RunFrom(pat, regparse, regprev); r == Run(acc + S.str, S.pos, S.backed)
        modifies this`regparse, this`regcode, this`regsize, this`out, code
        decreases |pat| - regparse
      {
        var ch := pat[regparse];
        regparse := regparse + 1;
        var c := At(pat, regparse);
        ghost var b := out;
        if EndsRun(c) {
          RegC(ch);
          acc := RunOn(dummy, a, b, acc, out, ch);
          break;
        } else if IsMult(c) {
          if regprev == -1 {
            RegC(ch);
            acc := RunOn(dummy, a, b, acc, out, ch);
            break;
          }
          regparse := regprev;
          break;
        } else if c == BACKSLASH {
          RegC(ch);
          acc := RunOn(dummy, a, b, acc, out, ch);
          var d := At(pat, regparse + 1);
          if d == 0 || d == LT || d == GT {
            break;
          }
          regprev := regparse;
          regparse := regparse + 1;
        } else {
          RegC(ch);
          acc := RunOn(dummy, a, b, acc, out, ch);
          regprev := regparse;
        }
      }
      assert acc + [] == acc;
    }

    /** x* as (x&|), around the code of x already emitted at a. */
    method EmitStar(ret: Ptr, ghost pre: seq<Byte>, ghost x: Piece)
      requires Valid() && WfP(x) && !SimpleP(x) && Room(12)
      requires ret == PtrTo(|pre|) && Step(dummy, pre, out, LayP(x, 0))
      modifies this`regcode, this`regsize, this`out, code
      ensures Valid() && Step(dummy, pre, out, LayP(Star(x), 0))
    {
      hide Node, Walks, Linked, LayP, SetNext, Valid, Star3, Star4, Sits, WfP, SimpleP;
      ghost var a, n := |pre|, SizeP(x);
      EmitLoop(ret, pre, x);
      Small();
      var other := RegNode(BRANCH);
      if !dummy { StarStep3(pre, x); StarStep4(pre, x); }
      RegTail(ret, other, a, a + n + 6, a);
      assert !dummy ==> out == Star4(pre, x);
      var empty := RegNode(NOTHING);
      RegTail(ret, empty, a, a + n + 9, a + n + 6);
    }

    /** Either x, and loop back. */
    method EmitLoop(ret: Ptr, ghost pre: seq<Byte>, ghost x: Piece)
      requires Valid() && WfP(x) && Room(6)
      requires ret == PtrTo(|pre|) && Step(dummy, pre, out, LayP(x, 0))
      modifies this`regcode, this`regsize, this`out, code
      ensures Valid() && |out| == |pre| + SizeP(x) + 6 && (!dummy ==> out == Star3(pre, x))
    {
      hide Node, Walks, Linked, LayP, SetNext, Valid, Star1, Star2, Star3, Sits, WfP;
      ghost var a, n := |pre|, SizeP(x);
      if !dummy { InsertLast(pre, LayP(x, 0), Node(BRANCH, 0)); }
      Small();
      RegInsert(BRANCH, ret, a);
      var back := RegNode(BACK);
      if !dummy { Star1Form(pre, x); StarStep1(pre, x); StarStep2(pre, x); }
      RegOpTail(ret, back, a, a + 3 + n, a + 3 + TailP(x));
      assert !dummy ==> out == Star2(pre, x);
      RegOpTail(ret, ret, a, a, a + 3 + n);
    }

    /** x+ as x(&|). */
    method EmitPlus(ret: Ptr, ghost pre: seq<Byte>, ghost x: Piece)
      requires Valid() && WfP(x) && !SimpleP(x) && Room(12)
      requires ret == PtrTo(|pre|) && Step(dummy, pre, out, LayP(x, 0))
      modifies this`regcode, this`regsize, this`out, code
      ensures Valid() && Step(dummy, pre, out, LayP(Plus(x), 0))
    {
      hide Node, Walks, Linked, LayP, SetNext, Valid, Plus1, Plus2, Plus3, Sits, SizeP, TailP, WfP, SimpleP;
      PlusIs(x, 0);
      ghost var a, n := |pre|, SizeP(x);
      var next := RegNode(BRANCH);
      if !dummy { PlusStep1(pre, x); PlusStep2(pre, x); PlusStep3(pre, x); PlusStep4(pre, x); }
      RegTail(ret, next, a, a + n, a + TailP(x));
      assert !dummy ==> out == Plus1(pre, x);
      var back := RegNode(BACK);
      RegTail(back, ret, a + n + 3, a, a + n + 3);
      assert !dummy ==> out == Plus2(pre, x);
      var other := RegNode(BRANCH);
      RegTail(next, other, a + n, a + n + 6, a + n);
      assert !dummy ==> out == Plus3(pre, x);
      var empty := RegNode(NOTHING);
      RegTail(ret, empty, a, a + n + 9, a + n + 6);
    }

    /** x? as (x|). */
    method EmitOpt(ret: Ptr, ghost pre: seq<Byte>, ghost x: Piece)
      requires Valid() && WfP(x) && Room(9)
      requires ret == PtrTo(|pre|) && Step(dummy, pre, out, LayP(x, 0))
      modifies this`regcode, this`regsize, this`out, code
      ensures Valid() && Step(dummy, pre, out, LayP(Opt(x), 0))
    {
      hide Node, Walks, Linked, LayP, SetNext, Valid, Opt1, Opt2, Sits, SizeP, TailP, WfP;
      OptIs(x, 0);
      ghost var a, n := |pre|, SizeP(x);
      if !dummy { InsertLast(pre, LayP(x, 0), Node(BRANCH, 0)); }
      RegInsert(BRANCH, ret, a);
      var other := RegNode(BRANCH);
      if !dummy { OptStep1(pre, x); OptStep2(pre, x); OptStep3(pre, x); }
      RegTail(ret, other, a, a + n + 3, a);
      assert !dummy ==> out == Opt1(pre, x);
      var next := RegNode(NOTHING);
      RegTail(ret, next, a, a + n + 6, a + n + 3);
      assert !dummy ==> out == Opt2(pre, x);
      RegOpTail(ret, next, a, a + n + 6, a + 3 + TailP(x));
    }

    /** regatom - the lowest level. */
    method RegAtom() returns (ret: Ptr, flags: Flags)
      requires Valid() && regparse < |pat| && 1 <= regnpar
      requires !dummy ==> var r := PAtom(pat, regparse, regnpar); r.Ok? && Room(SizeP(r.val))
      modifies this`regparse, this`regnpar, this`regcode, this`regsize, this`out, this`error, code
      ensures Valid()
      ensures var r := old(PAtom(pat, regparse, regnpar));
        && (ret.Null? <==> r.Fail?)
        && (r.Fail? ==> error == r.error)
        && (r.Ok? ==>
          && regparse == r.pos && regnpar == r.npar && ret == PtrTo(|old(out)|)
          && Step(dummy, old(out), out, LayP(r.val, 0))
          && flags.haswidth == WidthP(r.val) && flags.spstart == SpStartP(r.val)
          && (IsMult(At(pat, r.pos)) ==> flags.simple == SimpleP(r.val)))
      decreases |pat| - regparse, 1
    {
      hide Node, Valid, Step, RunFrom, PClass, LayP, LayReg;
      LayMarks();
      flags := Flags(false, false, false);
      var c := pat[regparse];
      regparse := regparse + 1;
      if c == CARET {
        ret := RegNode(BOL);
      } else if c == DOLLAR {
        ret := RegNode(EOL);
      } else if c == DOT {
        ret := RegNode(ANY);
        flags := Flags(true, true, false);
      } else if c == LBRACK {
        ret, flags := RegClass();
      } else if c == LPAREN {
        var f: Flags;
        ret, f := Reg(true);
        if ret == Null {
          return Null, flags;
        }
        flags := Flags(f.haswidth, false, f.spstart);
        LayGroup(old(regnpar), PReg(pat, old(regparse) + 1, old(regnpar), true).val);
      } else if c == BAR || c == NL || c == RPAREN {
        error := InternalUrp;
        return Null, flags;
      } else if IsMult(c) {
        error := FollowsNothing;
        return Null, flags;
      } else if c == BACKSLASH {
        ret, flags := RegEscape();
        return;
      } else {
        regparse := regparse - 1;
        MultFollowsOneChar(pat, regparse, -1);
        ret, flags := RegRun();
      }
    }

    /** The atom whose backslash has just been read. */
    method RegEscape() returns (ret: Ptr, flags: Flags)
      requires Valid() && 0 < regparse <= |pat| && pat[regparse - 1] == BACKSLASH && 1 <= regnpar
      requires !dummy ==> var r := PAtom(pat, regparse - 1, regnpar); r.Ok? && Room(SizeP(r.val))
      modifies this`regparse, this`regcode, this`regsize, this`out, this`error, code
      ensures Valid()
      ensures var r := old(PAtom(pat, regparse - 1, regnpar));
        && (ret.Null? <==> r.Fail?)
        && (r.Fail? ==> error == r.error)
        && (r.Ok? ==>
          && regparse == r.pos && regnpar == r.npar && ret == PtrTo(|old(out)|)
          && Step(dummy, old(out), out, LayP(r.val, 0))
          && flags.haswidth == WidthP(r.val) && flags.spstart == SpStartP(r.val)
          && (IsMult(At(pat, r.pos)) ==> flags.simple == SimpleP(r.val)))
    {
      hide Node, Valid, Step, RunFrom, PClass, LayP, LayReg;
      LayMarks();
      flags := Flags(false, false, false);
      var d := At(pat, regparse);
      if d == 0 {
        error := TrailingBackslash;
        return Null, flags;
      } else if d == LT {
        regparse := regparse + 1;
        ret := RegNode(WORDA);
      } else if d == GT {
        regparse := regparse + 1;
        ret := RegNode(WORDZ);
      } else {
        MultFollowsOneChar(pat, regparse, -1);
        ret, flags := RegRun();
      }
    }

    /** regpiece - something followed by a possible multiplier. */
    method RegPiece() returns (ret: Ptr, flags: Flags)
      requires Valid() && regparse < |pat| && 1 <= regnpar
      requires !dummy ==> var r := PPiece(pat, regparse, regnpar); r.Ok? && Room(SizeP(r.val))
      modifies this`regparse, this`regnpar, this`regcode, this`regsize, this`out, this`error, code
      ensures Valid()
      ensures var r := old(PPiece(pat, regparse, regnpar));
        && (ret.Null? <==> r.Fail?)
        && (r.Fail? ==> error == r.error)
        && (r.Ok? ==>
          && regparse == r.pos && regnpar == r.npar && ret == PtrTo(|old(out)|)
          && Step(dummy, old(out), out, LayP(r.val, 0))
          && flags.haswidth == WidthP(r.val) && flags.spstart == SpStartP(r.val))
      decreases |pat| - regparse, 2
    {
      hide Node, Valid, PAtom, WfP, Step, LayP, Multiplied, WidthP, SpStartP, SizeP;
      ghost var before := out;
      ghost var r := PAtom(pat, regparse, regnpar);
      ParsedAtom(pat, regparse, regnpar);
      if r.Ok? && IsMult(At(pat, r.pos)) {
        Multiplying(At(pat, r.pos), r.val);
      }
      ret, flags := RegAtom();
      if ret == Null {
        return;
      }
      var op := At(pat, regparse);
      if !IsMult(op) {
        return;
      }
      if !flags.haswidth && op != QUERY {
        error := CouldBeEmpty;
        return Null, flags;
      }
      ghost var mid := out;
      StepSize(dummy, before, mid, LayP(r.val, 0));
      var simple := flags.simple;
      flags := if op != PLUSCH then Flags(false, false, true) else Flags(true, false, false);
      Multiply(op, simple, ret, before, r.val);
      regparse := regparse + 1;
      if IsMult(At(pat, regparse)) {
        error := NestedMult;
        return Null, flags;
      }
    }

    /** The code of a multiplier, around the operand already emitted. */
    method Multiply(op: Byte, simple: bool, ret: Ptr, ghost pre: seq<Byte>, ghost x: Piece)
      requires Valid() && IsMult(op) && WfP(x) && simple == SimpleP(x)
      requires Room(SizeP(Multiplied(op, x)) - SizeP(x))
      requires ret == PtrTo(|pre|) && Step(dummy, pre, out, LayP(x, 0))
      modifies this`regcode, this`regsize, this`out, code
      ensures Valid() && Step(dummy, pre, out, LayP(Multiplied(op, x), 0))
    {
      hide Node, Valid, LayP, WfP;
      if op == STARCH && simple {
        if !dummy { InsertLast(pre, LayP(x, 0), Node(STAR, 0)); }
        RegInsert(STAR, ret, |pre|);
        SimpleForms(pre, x);
      } else if op == STARCH {
        EmitStar(ret, pre, x);
      } else if op == PLUSCH && simple {
        if !dummy { InsertLast(pre, LayP(x, 0), Node(PLUS, 0)); }
        RegInsert(PLUS, ret, |pre|);
        SimpleForms(pre, x);
      } else if op == PLUSCH {
        EmitPlus(ret, pre, x);
      } else {
        EmitOpt(ret, pre, x);
      }
    }

    /** The first piece of a branch needs no link; a later one is chained to the last. */
    method LinkPieces(chain: Ptr, latest: Ptr, ghost pre: seq<Byte>, ghost ps: seq<Piece>, ghost x: Piece)
      requires Valid() && WfB(ps)
      requires |out| == |pre| + SizePs(ps + [x]) && (!dummy ==> out == pre + LayPs(ps, 0) + LayP(x, 0))
      requires ps == [] ==> Step(dummy, pre, out, LayPs([x], 0))
      requires SizePs(ps + [x]) == SizePs(ps) + SizeP(x)
      requires chain == if ps == [] then Null else PtrTo(|pre| + SizePs(ps[..|ps| - 1]))
      requires latest == PtrTo(|pre| + SizePs(ps))
      modifies this`out, code
      ensures Valid() && Step(dummy, pre, out, LayPs(ps + [x], 0)) && |out| == |pre| + SizePs(ps + [x])
    {
      hide Valid, WfP, Step, LayP, LayPs, Walks, Linked, SizePs;
      if chain == Null {
        assert [] + [x] == [x];
      } else {
        ghost var init, last := ps[..|ps| - 1], ps[|ps| - 1];
        ghost var a := |pre| + SizePs(init);
        assert ps == init + [last];
        Small();
        LinkChain(dummy, pre, init, last, x, out);
        RegTail(chain, latest, a, |pre| + SizePs(ps), a + TailP(last));
        MakeStep(dummy, pre, out, LayPs(ps + [x], 0));
      }
    }

    /** One round of regbranch's loop: a piece, chained to the one before it. */
    method NextPiece(chain: Ptr, flags: Flags, ghost pre: seq<Byte>, ghost ps: seq<Piece>)
      returns (chain': Ptr, flags': Flags)
      requires Valid() && regparse < |pat| && 1 <= regnpar
      requires !dummy ==> var p := PPiece(pat, regparse, regnpar); p.Ok? && Room(SizeP(p.val))
      requires Step(dummy, pre, out, LayPs(ps, 0)) && |out| == |pre| + SizePs(ps)
      requires WfB(ps) && BranchFlags(flags, ps)
      requires chain == if ps == [] then Null else PtrTo(|pre| + SizePs(ps[..|ps| - 1]))
      modifies this`regparse, this`regnpar, this`regcode, this`regsize, this`out, this`error, code
      ensures Valid()
      ensures var p := old(PPiece(pat, regparse, regnpar));
        && (chain'.Null? <==> p.Fail?)
        && (p.Fail? ==> error == p.error)
        && (p.Ok? ==>
          && regparse == p.pos && regnpar == p.npar && chain' == PtrTo(|pre| + SizePs(ps))
          && Step(dummy, pre, out, LayPs(ps + [p.val], 0)) && |out| == |pre| + SizePs(ps + [p.val])
          && WfB(ps + [p.val]) && BranchFlags(flags', ps + [p.val]))
      decreases |pat| - regparse, 3
    {
      hide Node, Valid, PPiece, Step, LayP, LayPs, WfB, BranchFlags, SizePs, SizeP;
      flags' := flags;
      ghost var p := PPiece(pat, regparse, regnpar);
      ghost var mid := out;
      ParsedP(pat, regparse, regnpar);
      var f;
      chain', f := RegPiece();
      if chain' == Null {
        return;
      }
      ghost var x := p.val;
      PieceAfter(dummy, pre, mid, ps, out, x);
      FlagsSnoc(flags, ps, f, x);
      WfSnoc(ps, x);
      flags' := Flags(flags.haswidth || f.haswidth, false, if chain == Null then f.spstart else flags.spstart);
      LinkPieces(chain, chain', pre, ps, x);
    }

    /** regbranch - one alternative, its pieces in sequence. */
    method RegBranch() returns (ret: Ptr, flags: Flags)
      requires Valid() && regparse <= |pat| && 1 <= regnpar
      requires !dummy ==> var r := PBranch(pat, regparse, regnpar); r.Ok? && Room(3 + SizeB(r.val))
      modifies this`regparse, this`regnpar, this`regcode, this`regsize, this`out, this`error, code
      ensures Valid()
      ensures var r := old(PBranch(pat, regparse, regnpar));
        && (ret.Null? <==> r.Fail?)
        && (r.Fail? ==> error == r.error)
        && (r.Ok? ==>
          && regparse == r.pos && regnpar == r.npar && ret == PtrTo(|old(out)|)
          && Step(dummy, old(out), out, Node(BRANCH, 0) + LayB(r.val, 0))
          && BranchFlags(flags, r.val))
      decreases |pat| - regparse, 4, 1
    {
      hide Node, Valid, PBranch, Step, LayPs, BranchFlags, WfB;
      ghost var a := out;
      ghost var R := PBranch(pat, regparse, regnpar);
      ret := RegNode(BRANCH);
      ghost var b := out;
      StepSize(dummy, a, b, Node(BRANCH, 0));
      var ok, chain;
      ok, chain, flags := Pieces();
      if !ok {
        return Null, flags;
      }
      ghost var c := out;
      if chain == Null {
        var empty := RegNode(NOTHING);
        Then(dummy, b, c, [], out, Node(NOTHING, 0));
        assert [] + Node(NOTHING, 0) == Node(NOTHING, 0);
        Then(dummy, a, b, Node(BRANCH, 0), out, Node(NOTHING, 0));
      } else {
        Then(dummy, a, b, Node(BRANCH, 0), out, LayPs(R.val, 0));
      }
    }

    /** The loop of regbranch; chain is the last piece, NULL if the loop ran zero times. */
    method Pieces() returns (ok: bool, chain: Ptr, flags: Flags)
      requires Valid() && regparse <= |pat| && 1 <= regnpar
      requires !dummy ==> var r := PBranch(pat, regparse, regnpar); r.Ok? && Room(SizePs(r.val))
      modifies this`regparse, this`regnpar, this`regcode, this`regsize, this`out, this`error, code
      ensures Valid()
      ensures var r := old(PBranch(pat, regparse, regnpar));
        && (ok <==> r.Ok?)
        && (r.Fail? ==> error == r.error)
        && (r.Ok? ==>
          && regparse == r.pos && regnpar == r.npar && (chain == Null <==> r.val == [])
          && Step(dummy, old(out), out, LayPs(r.val, 0)) && |out| == |old(out)| + SizePs(r.val)
          && BranchFlags(flags, r.val))
      decreases |pat| - regparse, 4, 0
    {
      hide Valid, PPiece, Step, LayPs, WfB, BranchFlags, SizePs;
      ghost var R := PBranch(pat, regparse, regnpar);
      ghost var ps: seq<Piece> := [];
      ghost var pre := out;
      flags := Flags(false, false, false);
      NoPieces(dummy, pre);
      chain := Null;
      ghost var startpos := regparse;
      while !EndsBranch(At(pat, regparse))
        invariant Valid() && 1 <= regnpar && startpos <= regparse <= |pat|
        invariant Continues(R, ps, PBranch(pat, regparse, regnpar))
        invariant Step(dummy, pre, out, LayPs(ps, 0)) && |out| == |pre| + SizePs(ps)
        invariant chain == if ps == [] then Null else PtrTo(|pre| + SizePs(ps[..|ps| - 1]))
        invariant WfB(ps) && BranchFlags(flags, ps)
        modifies this`regparse, this`regnpar, this`regcode, this`regsize, this`out, this`error, code
        decreases |pat| - regparse
      {
        ghost var p := PPiece(pat, regparse, regnpar);
        ghost var S := PBranch(pat, regparse, regnpar);
        BranchRoom(R, ps, S, p);
        chain, flags := NextPiece(chain, flags, pre, ps);
        if chain == Null {
          return false, chain, flags;
        }
        ContinueMore(R, ps, S, [p.val], PBranch(pat, regparse, regnpar));
        assert (ps + [p.val])[..|ps|] == ps;
        ps := ps + [p.val];
      }
      assert R.Ok? && R.val == ps;
      ok := true;
    }

    /** reg - the whole pattern, or a group whose opening parenthesis is behind the cursor. */
    method Reg(paren: bool) returns (ret: Ptr, flags: Flags)
      requires Valid() && regparse <= |pat| && 1 <= regnpar
      requires !dummy ==> var r := PReg(pat, regparse, regnpar, paren);
        r.Ok? && Room(SizeA(r.val) + if paren then 6 else 3)
      modifies this`regparse, this`regnpar, this`regcode, this`regsize, this`out, this`error, code
      ensures Valid()
      ensures var r := old(PReg(pat, regparse, regnpar, paren));
        && (ret.Null? <==> r.Fail?)
        && (r.Fail? ==> error == r.error)
        && (r.Ok? ==>
          && regparse == r.pos && regnpar == r.npar && ret == PtrTo(|old(out)|)
          && Step(dummy, old(out), out, LayReg(r.val, paren, old(regnpar)))
          && AltFlags(flags, r.val))
      decreases |pat| - regparse, 6
    {
      hide Node, Valid, Step, PAlts, AltFlags, SizeA, LayReg;
      ghost var before := out;
      flags := Flags(true, false, false);
      var parno := 0;
      if paren {
        if regnpar >= NSUBEXP {
          error := TooManyParens;
          return Null, flags;
        }
        parno := regnpar;
        regnpar := regnpar + 1;
        ret := RegNode(OPEN + parno);
      } else {
        ret := Null;
        Nothing(dummy, before);
      }
      ghost var A := PAlts(pat, regparse, regnpar);
      ParsedA(pat, regparse, regnpar);
      if !dummy { OpenSize(before, out, paren, parno); }
      ret, flags := RegAlts(ret, before, paren, parno);
      if ret == Null {
        return;
      }
      CloseAlts(ret, paren, parno, before, A.val);
      assert LayReg(A.val, paren, parno) == LayReg(A.val, paren, old(regnpar)) by { NoNumber(A.val, parno, old(regnpar)); }
      if paren {
        regparse := regparse + 1;
        if At(pat, regparse - 1) != RPAREN {
          error := UnmatchedParens;
          return Null, flags;
        }
      } else if At(pat, regparse) != 0 {
        if At(pat, regparse) == RPAREN {
          error := UnmatchedParens;
          return Null, flags;
        }
        error := JunkOnEnd;
        return Null, flags;
      }
    }

    /** The alternatives one by one, each BRANCH linked to the next. */
    method RegAlts(open: Ptr, ghost before: seq<Byte>, ghost paren: bool, ghost no: nat) returns (ret: Ptr, flags: Flags)
      requires Valid() && regparse <= |pat| && 1 <= regnpar && no < NSUBEXP
      requires open == if paren then PtrTo(|before|) else Null
      requires Step(dummy, before, out, OpenDangling(paren, no))
      requires !dummy ==> var r := PAlts(pat, regparse, regnpar); r.Ok? && Room(SizeA(r.val))
      modifies this`regparse, this`regnpar, this`regcode, this`regsize, this`out, this`error, code
      ensures Valid()
      ensures var r := old(PAlts(pat, regparse, regnpar));
        && (ret.Null? <==> r.Fail?)
        && (r.Fail? ==> error == r.error)
        && (r.Ok? ==>
          && regparse == r.pos && regnpar == r.npar && ret == PtrTo(|before|)
          && Step(dummy, before, out, OpenNode(paren, no) + LayA(r.val, 0, 0))
          && |out| == |before| + |OpenNode(paren, no)| + SizeA(r.val)
          && AltFlags(flags, r.val))
      decreases |pat| - regparse, 5
    {
      hide Node, Valid, Step, PBranch, PAlts, AltFlags, BranchFlags, LayA, LayB, OpenNode, OpenDangling, SizeA, SizeB, AltsSoFar;
      ghost var R := PAlts(pat, regparse, regnpar);
      ghost var b := PBranch(pat, regparse, regnpar);
      FirstAlt(pat, regparse, regnpar);
      StepSize(dummy, before, out, OpenDangling(paren, no));
      ret, flags := FirstBranch(open, before, paren, no);
      if ret == Null {
        return;
      }
      ghost var bs := [Branch(b.val)];
      while At(pat, regparse) == BAR || At(pat, regparse) == NL
        invariant Valid() && 1 <= regnpar && regparse <= |pat| && bs != []
        invariant AltsSoFar(R, bs, pat, regparse, regnpar)
        invariant ret == PtrTo(|before|)
        invariant Step(dummy, before, out, OpenNode(paren, no) + LayA(bs, 0, 0))
        invariant |out| == |before| + |OpenNode(paren, no)| + SizeA(bs)
        invariant AltFlags(flags, bs)
        invariant old(regparse) <= regparse
        invariant !dummy ==> R.Ok? && |before| + |OpenNode(paren, no)| + SizeA(R.val) <= code.Length
        modifies this`regparse, this`regnpar, this`regcode, this`regsize, this`out, this`error, code
        decreases |pat| - regparse
      {
        regparse := regparse + 1;
        b := PBranch(pat, regparse, regnpar);
        ghost var mid := out;
        NextAlt(R, bs, pat, regparse - 1, regnpar);
        var br, f := RegBranch();
        if br == Null {
          return Null, flags;
        }
        LinkAlt(ret, br, before, paren, no, mid, bs, Branch(b.val));
        AltFlagsSnoc(flags, bs, f, Branch(b.val));
        flags := Flags(flags.haswidth && f.haswidth, false, flags.spstart || f.spstart);
        bs := bs + [Branch(b.val)];
      }
      LastAlt(R, bs, pat, regparse, regnpar);
    }

    /** The first of the branches, hooked to the OPEN in front of it if there is one. */
    method FirstBranch(open: Ptr, ghost before: seq<Byte>, ghost paren: bool, ghost no: nat) returns (ret: Ptr, flags: Flags)
      requires Valid() && regparse <= |pat| && 1 <= regnpar && no < NSUBEXP
      requires open == if paren then PtrTo(|before|) else Null
      requires Step(dummy, before, out, OpenDangling(paren, no))
      requires !dummy ==> var r := PBranch(pat, regparse, regnpar); r.Ok? && Room(3 + SizeB(r.val))
      modifies this`regparse, this`regnpar, this`regcode, this`regsize, this`out, this`error, code
      ensures Valid()
      ensures var b := old(PBranch(pat, regparse, regnpar));
        && (ret.Null? <==> b.Fail?)
        && (b.Fail? ==> error == b.error)
        && (b.Ok? ==>
          && regparse == b.pos && regnpar == b.npar && ret == PtrTo(|before|)
          && Step(dummy, before, out, OpenNode(paren, no) + LayA([Branch(b.val)], 0, 0))
          && |out| == |before| + |OpenNode(paren, no)| + SizeA([Branch(b.val)])
          && AltFlags(flags, [Branch(b.val)]))
      decreases |pat| - regparse, 4, 2
    {
      hide Node, Valid, Step, PBranch, AltFlags, BranchFlags, LayA, LayB, OpenNode, OpenDangling, SizeA, SizeB;
      ghost var b := PBranch(pat, regparse, regnpar);
      ghost var mid := out;
      StepSize(dummy, before, mid, OpenDangling(paren, no));
      var br, f := RegBranch();
      if br == Null {
        return Null, f;
      }
      flags := Flags(f.haswidth, false, f.spstart);
      ret := LinkOpen(open, br, before, paren, no, mid, Branch(b.val));
      FirstFlags(flags, f, b.val);
    }

    /** OPEN leads to the first branch. */
    method LinkOpen(open: Ptr, br: Ptr, ghost before: seq<Byte>, ghost paren: bool, ghost no: nat, ghost mid: seq<Byte>, ghost b: Branch)
      returns (ret: Ptr)
      requires Valid() && no < NSUBEXP
      requires Step(dummy, before, mid, OpenDangling(paren, no)) && Step(dummy, mid, out, Node(BRANCH, 0) + LayB(b.ps, 0))
      requires open == (if paren then PtrTo(|before|) else Null) && br == PtrTo(|mid|)
      modifies this`out, code
      ensures Valid() && ret == PtrTo(|before|)
      ensures Step(dummy, before, out, OpenNode(paren, no) + LayA([b], 0, 0))
      ensures |out| == |before| + |OpenNode(paren, no)| + SizeA([b])
    {
      hide Valid, Node, LayB, LayA, Walks, Linked;
      ghost var F := Node(BRANCH, 0) + LayB(b.ps, 0);
      LayOne(b);
      if open != Null {
        if !dummy {
          LinkNode(before, OPEN + no, F, |before| + 3);
          assert out == before + Node(OPEN + no, 0) + F;
        }
        RegTail(open, br, |before|, |before| + 3, |before|);
        ret := open;
        assert before + Node(OPEN + no, 3) + F == before + (Node(OPEN + no, 3) + F);
      } else {
        ret := br;
        assert mid == before || dummy;
        assert [] + F == F;
      }
    }

    /** The last branch so far leads to the next one. */
    method LinkAlt(ret: Ptr, br: Ptr, ghost before: seq<Byte>, ghost paren: bool, ghost no: nat, ghost mid: seq<Byte>, ghost bs: seq<Branch>, ghost b: Branch)
      requires Valid() && no < NSUBEXP && bs != []
      requires Step(dummy, before, mid, OpenNode(paren, no) + LayA(bs, 0, 0))
      requires Step(dummy, mid, out, Node(BRANCH, 0) + LayB(b.ps, 0))
      requires ret == PtrTo(|before|) && br == PtrTo(|mid|)
      modifies this`out, code
      ensures Valid() && Step(dummy, before, out, OpenNode(paren, no) + LayA(bs + [b], 0, 0))
      ensures |out| == |before| + |OpenNode(paren, no)| + SizeA(bs + [b])
    {
      hide Valid, Node, LayB, LayA, Walks, Linked, OpenNode, SetNext;
      ghost var H := OpenNode(paren, no);
      ghost var a := |before| + |H|;
      SnocA(bs, b);
      Small();
      if !dummy {
        ghost var t, B := AltBuffer(before, paren, no, mid, bs, b, out);
      }
      RegTail(ret, br, |before|, |mid|, a + LastA(bs));
    }

    /** The closing node, linked to the last BRANCH and then to the end of every body. */
    method CloseAlts(ret: Ptr, paren: bool, no: nat, ghost before: seq<Byte>, ghost bs: seq<Branch>)
      requires Valid() && no < NSUBEXP && bs != [] && WfA(bs) && Room(3)
      requires ret == PtrTo(|before|) && Step(dummy, before, out, OpenNode(paren, no) + LayA(bs, 0, 0))
      modifies this`regcode, this`regsize, this`out, code
      ensures Valid() && Step(dummy, before, out, LayReg(bs, paren, no))
    {
      hide Valid, Node, LayA, Walks, Linked, OpenNode, Op, NextOff, Closing, WfA;
      var op: Byte := if paren then CLOSE + no else END;
      ghost var H, n := OpenNode(paren, no), |bs|;
      ghost var e := |before| + |H| + SizeA(bs);
      Small();
      var ender := RegNode(op);
      Small();
      if !dummy {
        ghost var B := CloseChain(before, paren, no, bs, op);
      }
      RegTail(ret, ender, |before|, e, |before| + |H| + LastA(bs));
      var br := ret;
      ghost var spot := if paren then AtOpen else AtBranch(0);
      while br != Null
        invariant Valid() && |out| == e + 3
        invariant spot.AtBranch? ==> spot.i < |bs|
        invariant spot.AtOpen? ==> paren
        invariant dummy ==> br == Dummy || br == Null
        invariant !dummy ==>
          && br == (if spot.Past? then Null else Code(SpotAddr(spot, |before|, |H|, bs)))
          && out == Closing(before, H, bs, Done(spot, n), op)
        modifies this`out, code
        decreases br != Null, if dummy then 0 else Left(spot, n)
      {
        br := CloseOne(br, ender, before, paren, no, bs, op, spot);
        if !dummy {
          spot := NextSpot(spot, n);
        }
      }
      if !dummy {
        ClosedForm(before, H, bs, op);
      }
    }

    /** One round of that loop. */
    method CloseOne(br: Ptr, ender: Ptr, ghost before: seq<Byte>, ghost paren: bool, ghost no: nat,
                    ghost bs: seq<Branch>, ghost op: Byte, ghost spot: Spot)
      returns (next: Ptr)
      requires Valid() && no < NSUBEXP && bs != [] && WfA(bs) && op != BRANCH && op != BACK && br != Null
      requires (spot.AtOpen? ==> paren) && (spot.AtBranch? ==> spot.i < |bs|)
      requires ender == PtrTo(|before| + |OpenNode(paren, no)| + SizeA(bs))
      requires dummy ==> br == Dummy
      requires !dummy ==>
        && !spot.Past? && br == Code(SpotAddr(spot, |before|, |OpenNode(paren, no)|, bs))
        && out == Closing(before, OpenNode(paren, no), bs, Done(spot, |bs|), op)
      modifies this`out, code
      ensures Valid() && |out| == |old(out)|
      ensures dummy ==> next == Null
      ensures !dummy ==>
        var spot' := NextSpot(spot, |bs|);
        && next == (if spot'.Past? then Null else Code(SpotAddr(spot', |before|, |OpenNode(paren, no)|, bs)))
        && out == Closing(before, OpenNode(paren, no), bs, Done(spot', |bs|), op)
    {
      hide Valid, Node, LayA, Walks, Linked, OpenNode, Op, NextOff, Closing, WfA;
      ghost var e := |before| + |OpenNode(paren, no)| + SizeA(bs);
      ghost var a, t := 0, 0;
      if !dummy {
        Small();
        SizeClosing(before, OpenNode(paren, no), bs, Done(spot, |bs|), op);
        CloseRound(before, paren, no, bs, op, spot);
        a := SpotAddr(spot, |before|, |OpenNode(paren, no)|, bs);
        if spot.AtBranch? {
          t := a + 3 + TailB(bs[spot.i].ps);
        }
      }
      RegOpTail(br, ender, a, e, t);
      next := RegNext(br);
    }
  }

  /** A pass has gone from `before` to `before` followed by F; while only counting, just
      the number of bytes is right. */
  ghost predicate Step(dummy: bool, before: seq<Byte>, after: seq<Byte>, F: seq<Byte>) {
    |after| == |before| + |F| && (!dummy ==> after == before + F)
  }

  lemma Then(dummy: bool, a: seq<Byte>, b: seq<Byte>, F: seq<Byte>, c: seq<Byte>, G: seq<Byte>)
    requires Step(dummy, a, b, F) && Step(dummy, b, c, G)
    ensures Step(dummy, a, c, F + G) && |c| == |a| + |F| + |G|
  {
    assert a + (F + G) == a + F + G;
  }

  lemma StepSize(dummy: bool, a: seq<Byte>, b: seq<Byte>, F: seq<Byte>)
    requires Step(dummy, a, b, F)
    ensures |b| == |a| + |F| && (!dummy ==> b == a + F)
  {
  }

  /** code with the tail node at t made to lead to v. */
  function Linked(code: seq<Byte>, t: nat, v: nat): (r: seq<Byte>)
    requires t + 3 <= |code|
    ensures |r| == |code|
  {
    SetNext(code, t, if Op(code, t) == BACK then t - v else v - t)
  }

  lemma WalkEnds(code: seq<Byte>, p: int, t: int)
    requires Walks(code, p, t)
    ensures 0 <= p && p + 3 <= |code| && p <= t && t + 3 <= |code| && NextOff(code, t) == 0
    ensures NextOff(code, p) == 0 ==> p == t
    ensures NextOff(code, p) != 0 ==> Op(code, p) != BACK && Walks(code, p + NextOff(code, p), t)
    decreases |code| - p
  {
    if NextOff(code, p) != 0 {
      WalkEnds(code, p + NextOff(code, p), t);
    }
  }

  lemma Nothing(dummy: bool, a: seq<Byte>)
    ensures Step(dummy, a, a, [])
  {
  }

  ghost predicate BranchFlags(flags: Flags, ps: seq<Piece>) {
    flags.haswidth == WidthB(ps) && flags.spstart == SpStartB(ps)
  }

  lemma FlagsSnoc(flags: Flags, ps: seq<Piece>, f: Flags, x: Piece)
    requires BranchFlags(flags, ps) && f.haswidth == WidthP(x) && f.spstart == SpStartP(x)
    ensures BranchFlags(Flags(flags.haswidth || f.haswidth, false, if ps == [] then f.spstart else flags.spstart),
                        ps + [x])
  {
    WidthSnocB(ps, x);
  }

  lemma NoPieces(dummy: bool, a: seq<Byte>)
    ensures Step(dummy, a, a, LayPs([], 0)) && SizePs([]) == 0
    ensures BranchFlags(Flags(false, false, false), []) && WfB([]) && LayPs([], 0) == []
  {
  }

  function ClassOp(pat: Text, pos: nat): Byte {
    if At(pat, pos) == CARET then ANYBUT else ANYOF
  }

  lemma LayMarks()
    ensures LayP(Bol, 0) == Node(BOL, 0) && LayP(Eol, 0) == Node(EOL, 0) && LayP(Any, 0) == Node(ANY, 0)
    ensures LayP(WordA, 0) == Node(WORDA, 0) && LayP(WordZ, 0) == Node(WORDZ, 0)
  {
  }

  lemma LayGroup(no: nat, bs: seq<Branch>)
    ensures LayP(Group(no, bs), 0) == LayReg(bs, true, no) && SizeP(Group(no, bs)) == SizeA(bs) + 6
  {
    hide LayA, Node, SizeA;
  }

  lemma LayClass(chars: seq<Byte>)
    ensures LayP(AnyOf(chars), 0) == Node(ANYOF, 0) + chars + [0]
    ensures LayP(AnyBut(chars), 0) == Node(ANYBUT, 0) + chars + [0]
  {
  }

  lemma LayExact(str: seq<Byte>)
    ensures LayP(Exact(str), 0) == Node(EXACTLY, 0) + str + [0]
  {
  }

  /** One more character of a literal run. */
  lemma RunOn(dummy: bool, a: seq<Byte>, b: seq<Byte>, acc: seq<Byte>, c: seq<Byte>, ch: Byte)
    returns (acc': seq<Byte>)
    requires Step(dummy, a, b, acc) && Step(dummy, b, c, [ch])
    ensures acc' == acc + [ch] && Step(dummy, a, c, acc') && |c| == |a| + |acc'|
    ensures forall rest: seq<Byte> :: acc + ([ch] + rest) == acc' + rest
  {
    acc' := acc + [ch];
    Then(dummy, a, b, acc, c, [ch]);
  }

  /** A parse of a list is what has been read so far and then the rest. */
  predicate Continues<T(==)>(R: Parse<seq<T>>, acc: seq<T>, S: Parse<seq<T>>) {
    && (R.Fail? <==> S.Fail?)
    && (R.Fail? ==> R.error == S.error)
    && (R.Ok? ==> R.val == acc + S.val && R.pos == S.pos && R.npar == S.npar)
  }

  lemma ContinueMore<T>(R: Parse<seq<T>>, acc: seq<T>, S: Parse<seq<T>>, item: seq<T>, S': Parse<seq<T>>)
    requires Continues(R, acc, S) && Continues(S, item, S')
    ensures Continues(R, acc + item, S')
  {
  }

  // ---- what linking does to a buffer, fragment by fragment ----

  lemma SitsMid(pre: seq<Byte>, F: seq<Byte>, post: seq<Byte>)
    ensures Sits(pre + F + post, |pre|, F)
  {
  }

  /** Linking a dangling piece in the middle of a buffer. */
  lemma LinkPiece(pre: seq<Byte>, x: Piece, post: seq<Byte>, v: nat)
    requires WfP(x) && SizeP(x) < LIMIT && |pre| + SizeP(x) <= v
    ensures var B := pre + LayP(x, 0) + post; var t := |pre| + TailP(x);
      && Walks(B, |pre|, t) && Op(B, t) != BACK
      && Linked(B, t, v) == pre + LayP(x, v - |pre|) + post
  {
    hide LayP, Walks, Node, Sits, SizeP, TailP, TailOp, WfP, SetNext, Hi, Lo, Op;
    var B, t, k := pre + LayP(x, 0) + post, TailP(x), v - |pre|;
    SitsMid(pre, LayP(x, 0), post);
    WalkP(B, |pre|, x);
    ToTail(B, |pre|, x, 0);
    NoTail(t);
    NeverBack(x);
    SitsNode(B, |pre| + t, TailOp(x), 0);
    PatchP(x, k);
    PatchInside(pre, LayP(x, 0), post, t, k - t);
  }

  /** Linking a dangling node in the middle of a buffer. */
  lemma LinkNode(pre: seq<Byte>, op: Byte, post: seq<Byte>, v: nat)
    requires if op == BACK then v <= |pre| else |pre| <= v
    ensures Walks(pre + Node(op, 0) + post, |pre|, |pre|)
    ensures Op(pre + Node(op, 0) + post, |pre|) == op
    ensures Linked(pre + Node(op, 0) + post, |pre|, v)
      == pre + Node(op, if op == BACK then |pre| - v else v - |pre|) + post
  {
    hide Sits, Node, Walks, SetNext;
    var B := pre + Node(op, 0) + post;
    var k := if op == BACK then |pre| - v else v - |pre|;
    assert Walks(B, |pre|, |pre|) && Op(B, |pre|) == op by {
      SitsMid(pre, Node(op, 0), post);
      SitsNode(B, |pre|, op, 0);
      DanglingNode(B, |pre|, op);
    }
    PatchAt(pre, op, post, k);
  }

  lemma PatchAt(pre: seq<Byte>, op: Byte, post: seq<Byte>, k: int)
    ensures SetNext(pre + Node(op, 0) + post, |pre|, k) == pre + Node(op, k) + post
  {
  }

  /** A linked node leads on to where the walk ends. */
  lemma WalkFrom(pre: seq<Byte>, op: Byte, off: int, post: seq<Byte>, t: int)
    requires op != BACK && 0 < off < 65536
    requires Walks(pre + Node(op, off) + post, |pre| + off, t)
    ensures Walks(pre + Node(op, off) + post, |pre|, t)
  {
    SitsMid(pre, Node(op, off), post);
    SitsNode(pre + Node(op, off) + post, |pre|, op, off);
  }

  /** The same, over a linked piece. */
  lemma WalkOver(pre: seq<Byte>, x: Piece, k: int, post: seq<Byte>, t: int)
    requires WfP(x) && SizeP(x) <= k < LIMIT
    requires Walks(pre + LayP(x, k) + post, |pre| + k, t)
    ensures Walks(pre + LayP(x, k) + post, |pre|, t)
  {
    hide LayP;
    SitsMid(pre, LayP(x, k), post);
    ReachP(pre + LayP(x, k) + post, |pre|, x, k);
    ReachThenWalk(pre + LayP(x, k) + post, |pre|, |pre| + k, t);
  }

  lemma NoTail(t: int)
    ensures Tail(0, t) == 0
  {
  }

  lemma LayOpt(x: Piece)
    ensures var n := SizeP(x);
      LayP(Opt(x), 0) == Node(BRANCH, n + 3) + LayP(x, n + 3) + Node(BRANCH, 3) + Node(NOTHING, 0)
  {
    hide *;
    OptIs(x, 0);
    NoTail(SizeP(x) + 6);
  }

  // ---- the buffer at each step of x*, x+ and x? ----

  function Star1(pre: seq<Byte>, x: Piece): seq<Byte> {
    pre + Node(BRANCH, 0) + LayP(x, 0) + Node(BACK, 0)
  }

  function Star2(pre: seq<Byte>, x: Piece): seq<Byte> {
    pre + Node(BRANCH, 0) + LayP(x, SizeP(x)) + Node(BACK, 0)
  }

  function Star3(pre: seq<Byte>, x: Piece): seq<Byte> {
    pre + Node(BRANCH, 0) + LayP(x, SizeP(x)) + Node(BACK, SizeP(x) + 3)
  }

  function Star4(pre: seq<Byte>, x: Piece): seq<Byte> {
    pre + Node(BRANCH, SizeP(x) + 6) + LayP(x, SizeP(x)) + Node(BACK, SizeP(x) + 3) + Node(BRANCH, 0)
  }

  lemma Star1Form(pre: seq<Byte>, x: Piece)
    ensures pre + Node(BRANCH, 0) + LayP(x, 0) + Node(BACK, 0) == Star1(pre, x)
  {
  }

  lemma StarStep1(pre: seq<Byte>, x: Piece)
    requires WfP(x) && SizeP(x) < LIMIT
    ensures var a, n := |pre|, SizeP(x); var B := Star1(pre, x);
      && Op(B, a) == BRANCH && Walks(B, a + 3, a + 3 + TailP(x)) && Op(B, a + 3 + TailP(x)) != BACK
      && Linked(B, a + 3 + TailP(x), a + 3 + n) == Star2(pre, x)
  {
    hide LayP, Walks, Node, Linked;
    var a, n := |pre|, SizeP(x);
    LinkPiece(pre + Node(BRANCH, 0), x, Node(BACK, 0), a + 3 + n);
    OpAt(pre, BRANCH, 0, LayP(x, 0) + Node(BACK, 0));
    assert Star1(pre, x) == pre + Node(BRANCH, 0) + (LayP(x, 0) + Node(BACK, 0));
  }

  lemma Shifted(B: seq<Byte>, B': seq<Byte>, a: nat, op: Byte)
    requires a <= |B| && |B'| == |B| + 3 && B'[a] == op && B'[a + 1] == B'[a + 2] == 0
    requires forall i :: 0 <= i < a ==> B'[i] == B[i]
    requires forall i :: a + 3 <= i < |B'| ==> B'[i] == B[i - 3]
    ensures B' == B[..a] + Node(op, 0) + B[a..]
  {
  }

  /** RegInsert in front of the last fragment of a buffer. */
  lemma InsertLast(pre: seq<Byte>, F: seq<Byte>, N: seq<Byte>)
    ensures var B := pre + F; B[..|pre|] + N + B[|pre|..] == pre + N + F
  {
  }

  lemma OpAt(pre: seq<Byte>, op: Byte, off: int, post: seq<Byte>)
    ensures Op(pre + Node(op, off) + post, |pre|) == op
  {
  }

  lemma StarStep2(pre: seq<Byte>, x: Piece)
    requires WfP(x) && SizeP(x) < LIMIT
    ensures var a, n := |pre|, SizeP(x); var B := Star2(pre, x);
      && Op(B, a) == BRANCH && Walks(B, a + 3, a + 3 + n) && Op(B, a + 3 + n) == BACK
      && Linked(B, a + 3 + n, a) == Star3(pre, x)
  {
    hide LayP, Walks, Node, Linked;
    var a, n := |pre|, SizeP(x);
    var F := pre + Node(BRANCH, 0);
    var B := Star2(pre, x);
    LinkNode(F + LayP(x, n), BACK, [], a);
    assert F + LayP(x, n) + Node(BACK, 0) + [] == B;
    assert F + LayP(x, n) + Node(BACK, n + 3) + [] == Star3(pre, x);
    WalkOver(F, x, n, Node(BACK, 0), a + 3 + n);
    OpAt(pre, BRANCH, 0, LayP(x, n) + Node(BACK, 0));
    assert B == pre + Node(BRANCH, 0) + (LayP(x, n) + Node(BACK, 0));
  }

  lemma StarStep3(pre: seq<Byte>, x: Piece)
    requires WfP(x) && SizeP(x) < LIMIT
    ensures var a, n := |pre|, SizeP(x); var B := Star3(pre, x) + Node(BRANCH, 0);
      && Walks(B, a, a) && Op(B, a) != BACK
      && Linked(B, a, a + n + 6) == Star4(pre, x)
  {
    hide LayP, Walks, Node, Linked;
    var a, n := |pre|, SizeP(x);
    var post := LayP(x, n) + Node(BACK, n + 3) + Node(BRANCH, 0);
    LinkNode(pre, BRANCH, post, a + n + 6);
    assert pre + Node(BRANCH, 0) + post == Star3(pre, x) + Node(BRANCH, 0);
    assert pre + Node(BRANCH, n + 6) + post == Star4(pre, x);
  }

  lemma StarStep4(pre: seq<Byte>, x: Piece)
    requires WfP(x) && SizeP(x) < LIMIT && !SimpleP(x)
    ensures var a, n := |pre|, SizeP(x); var B := Star4(pre, x) + Node(NOTHING, 0);
      && Walks(B, a, a + n + 6) && Op(B, a + n + 6) != BACK
      && Linked(B, a + n + 6, a + n + 9) == pre + LayP(Star(x), 0)
  {
    hide Walks, Node, Linked, LayP, SizeP, SimpleP, WfP, Op;
    var a, n := |pre|, SizeP(x);
    var B, L, K, B0, B', N := Node(BRANCH, n + 6), LayP(x, n), Node(BACK, n + 3), Node(BRANCH, 0), Node(BRANCH, 3), Node(NOTHING, 0);
    LayStar(x, 0);
    NoTail(n + 9);
    LinkNode(pre + B + L + K, BRANCH, N, a + n + 9);
    Flatten(pre, B, L, K, B0, N);
    Flatten(pre, B, L, K, B', N);
    WalkFrom(pre, BRANCH, n + 6, L + K + B0 + N, a + n + 6);
  }

  lemma Flatten(a: seq<Byte>, b: seq<Byte>, c: seq<Byte>, d: seq<Byte>, e: seq<Byte>, f: seq<Byte>)
    ensures a + b + (c + d + e + f) == a + b + c + d + e + f
    ensures a + b + c + (d + e + f) == a + b + c + d + e + f
    ensures a + b + (c + (d + e + f)) == a + b + c + d + e + f
    ensures a + (b + c + d + e + f) == a + b + c + d + e + f
    ensures a + (b + c + d + e) + f == a + b + c + d + e + f
  {
  }

  function Plus1(pre: seq<Byte>, x: Piece): seq<Byte> {
    pre + LayP(x, SizeP(x)) + Node(BRANCH, 0)
  }

  function Plus2(pre: seq<Byte>, x: Piece): seq<Byte> {
    pre + LayP(x, SizeP(x)) + Node(BRANCH, 0) + Node(BACK, SizeP(x) + 3)
  }

  function Plus3(pre: seq<Byte>, x: Piece): seq<Byte> {
    pre + LayP(x, SizeP(x)) + Node(BRANCH, 6) + Node(BACK, SizeP(x) + 3) + Node(BRANCH, 0)
  }

  lemma PlusStep1(pre: seq<Byte>, x: Piece)
    requires WfP(x) && SizeP(x) < LIMIT
    ensures var a, n := |pre|, SizeP(x); var B := pre + LayP(x, 0) + Node(BRANCH, 0);
      && Walks(B, a, a + TailP(x)) && Op(B, a + TailP(x)) != BACK
      && Linked(B, a + TailP(x), a + n) == Plus1(pre, x)
  {
    hide Walks, Node, Linked, LayP;
    LinkPiece(pre, x, Node(BRANCH, 0), |pre| + SizeP(x));
  }

  lemma PlusStep2(pre: seq<Byte>, x: Piece)
    ensures var a, n := |pre|, SizeP(x); var B := Plus1(pre, x) + Node(BACK, 0);
      && Walks(B, a + n + 3, a + n + 3) && Op(B, a + n + 3) == BACK
      && Linked(B, a + n + 3, a) == Plus2(pre, x)
  {
    hide Walks, Node, Linked, LayP;
    LinkNode(Plus1(pre, x), BACK, [], |pre|);
    assert Plus1(pre, x) + Node(BACK, 0) + [] == Plus1(pre, x) + Node(BACK, 0);
  }

  lemma PlusStep3(pre: seq<Byte>, x: Piece)
    ensures var a, n := |pre|, SizeP(x); var B := Plus2(pre, x) + Node(BRANCH, 0);
      && Walks(B, a + n, a + n) && Op(B, a + n) != BACK
      && Linked(B, a + n, a + n + 6) == Plus3(pre, x)
  {
    hide Walks, Node, Linked, LayP;
    var n := SizeP(x);
    var F, post := pre + LayP(x, n), Node(BACK, n + 3) + Node(BRANCH, 0);
    LinkNode(F, BRANCH, post, |pre| + n + 6);
    assert F + Node(BRANCH, 0) + post == Plus2(pre, x) + Node(BRANCH, 0);
    assert F + Node(BRANCH, 6) + post == Plus3(pre, x);
  }

  lemma PlusStep4(pre: seq<Byte>, x: Piece)
    requires WfP(x) && SizeP(x) < LIMIT && !SimpleP(x)
    ensures var a, n := |pre|, SizeP(x); var B := Plus3(pre, x) + Node(NOTHING, 0);
      && Walks(B, a, a + n + 6) && Op(B, a + n + 6) != BACK
      && Linked(B, a + n + 6, a + n + 9) == pre + LayP(Plus(x), 0)
  {
    hide Walks, Node, Linked, LayP, SizeP, SimpleP, WfP, Op;
    var a, n := |pre|, SizeP(x);
    var L, B, K, B0, B', N := LayP(x, n), Node(BRANCH, 6), Node(BACK, n + 3), Node(BRANCH, 0), Node(BRANCH, 3), Node(NOTHING, 0);
    LayPlus(x, 0);
    NoTail(n + 9);
    LinkNode(pre + L + B + K, BRANCH, N, a + n + 9);
    Flatten(pre, L, B, K, B0, N);
    Flatten(pre, L, B, K, B', N);
    WalkFrom(pre + L, BRANCH, 6, K + B0 + N, a + n + 6);
    WalkOver(pre, x, n, B + (K + B0 + N), a + n + 6);
  }

  function Opt1(pre: seq<Byte>, x: Piece): seq<Byte> {
    pre + Node(BRANCH, SizeP(x) + 3) + LayP(x, 0) + Node(BRANCH, 0)
  }

  function Opt2(pre: seq<Byte>, x: Piece): seq<Byte> {
    pre + Node(BRANCH, SizeP(x) + 3) + LayP(x, 0) + Node(BRANCH, 3) + Node(NOTHING, 0)
  }

  lemma OptStep1(pre: seq<Byte>, x: Piece)
    ensures var a, n := |pre|, SizeP(x); var B := pre + Node(BRANCH, 0) + LayP(x, 0) + Node(BRANCH, 0);
      && Walks(B, a, a) && Op(B, a) != BACK && Linked(B, a, a + n + 3) == Opt1(pre, x)
  {
    hide Walks, Node, Linked, LayP;
    var n, post := SizeP(x), LayP(x, 0) + Node(BRANCH, 0);
    LinkNode(pre, BRANCH, post, |pre| + n + 3);
    assert pre + Node(BRANCH, 0) + post == pre + Node(BRANCH, 0) + LayP(x, 0) + Node(BRANCH, 0);
    assert pre + Node(BRANCH, n + 3) + post == Opt1(pre, x);
  }

  lemma OptStep2(pre: seq<Byte>, x: Piece)
    requires SizeP(x) < LIMIT
    ensures var a, n := |pre|, SizeP(x); var B := Opt1(pre, x) + Node(NOTHING, 0);
      && Walks(B, a, a + n + 3) && Op(B, a + n + 3) != BACK && Linked(B, a + n + 3, a + n + 6) == Opt2(pre, x)
  {
    hide Walks, Node, Linked, LayP;
    var a, n := |pre|, SizeP(x);
    var F := pre + Node(BRANCH, n + 3) + LayP(x, 0);
    var post := LayP(x, 0) + Node(BRANCH, 0) + Node(NOTHING, 0);
    LinkNode(F, BRANCH, Node(NOTHING, 0), a + n + 6);
    assert F + Node(BRANCH, 0) + Node(NOTHING, 0) == pre + Node(BRANCH, n + 3) + post;
    WalkFrom(pre, BRANCH, n + 3, post, a + n + 3);
  }

  lemma OptStep3(pre: seq<Byte>, x: Piece)
    requires WfP(x) && SizeP(x) < LIMIT
    ensures var a, n := |pre|, SizeP(x); var B := Opt2(pre, x);
      && Op(B, a) == BRANCH && Walks(B, a + 3, a + 3 + TailP(x)) && Op(B, a + 3 + TailP(x)) != BACK
      && Linked(B, a + 3 + TailP(x), a + n + 6) == pre + LayP(Opt(x), 0)
  {
    hide Walks, Node, Linked, LayP, Op, SizeP, TailP, WfP;
    var a, n := |pre|, SizeP(x);
    var B, L, L', B', N := Node(BRANCH, n + 3), LayP(x, 0), LayP(x, n + 3), Node(BRANCH, 3), Node(NOTHING, 0);
    Regroup3(pre + B, L, B', N);
    LinkPiece(pre + B, x, B' + N, a + n + 6);
    LayOpt(x);
    Regroup4(pre, B, L', B', N);
    OpAt(pre, BRANCH, n + 3, L + (B' + N));
    Regroup4(pre, B, L, B', N);
  }

  lemma Regroup3(a: seq<Byte>, b: seq<Byte>, c: seq<Byte>, d: seq<Byte>)
    ensures a + b + (c + d) == a + b + c + d
  {
  }

  lemma Regroup4(a: seq<Byte>, b: seq<Byte>, c: seq<Byte>, d: seq<Byte>, e: seq<Byte>)
    ensures a + b + c + (d + e) == a + (b + c + d + e)
    ensures a + b + (c + (d + e)) == a + b + c + d + e
  {
  }

  // ---- the buffer while branches and alternatives are linked ----

  /** Linking the last piece of a branch to the piece just emitted after it. */
  lemma LinkLastPiece(pre: seq<Byte>, init: seq<Piece>, last: Piece, x: Piece)
    returns (B: seq<Byte>, B': seq<Byte>)
    requires WfP(last) && SizeP(last) < LIMIT
    ensures B == pre + LayPs(init + [last], 0) + LayP(x, 0)
    ensures B' == pre + LayPs(init + [last] + [x], 0)
    ensures var s := |pre| + SizePs(init);
      && s + SizeP(last) <= |B|
      && Walks(B, s, s + TailP(last)) && Op(B, s + TailP(last)) != BACK
      && Linked(B, s + TailP(last), s + SizeP(last)) == B'
  {
    hide Walks, Linked, LayP, LayPs, SetNext;
    var s := |pre| + SizePs(init);
    var I, L, L', X := LayPs(init, SizePs(init)), LayP(last, 0), LayP(last, SizeP(last)), LayP(x, 0);
    B := pre + I + L + X;
    B' := pre + I + L' + X;
    LinkPiece(pre + I, last, X, s + SizeP(last));
    LastPieceForms(init, last, x);
    Regroup(pre, I, L, X);
    Regroup(pre, I, L', X);
  }

  lemma LastPieceForms(init: seq<Piece>, last: Piece, x: Piece)
    ensures LayPs(init + [last], 0) == LayPs(init, SizePs(init)) + LayP(last, 0)
    ensures LayPs(init + [last] + [x], 0) == LayPs(init, SizePs(init)) + LayP(last, SizeP(last)) + LayP(x, 0)
    ensures SizePs(init + [last]) == SizePs(init) + SizeP(last)
  {
    hide LayP, LayPs, SizeP, SizePs;
    var ps := init + [last];
    SnocPs(init, last, 0);
    SnocPs(init, last, SizePs(ps));
    SnocPs(ps, x, 0);
  }

  lemma Regroup(a: seq<Byte>, b: seq<Byte>, c: seq<Byte>, d: seq<Byte>)
    ensures a + (b + c) + d == a + b + c + d
    ensures a + (b + c + d) == a + (b + c) + d
  {
  }

  /** Linking the last BRANCH of a chain to what has just been emitted after it. */
  lemma LinkAlts(pre: seq<Byte>, bs: seq<Branch>, post: seq<Byte>)
    requires bs != [] && SizeA(bs) < LIMIT
    ensures var t := |pre| + LastA(bs);
      && Walks(pre + LayA(bs, 0, 0) + post, |pre|, t) && Op(pre + LayA(bs, 0, 0) + post, t) != BACK
      && Linked(pre + LayA(bs, 0, 0) + post, t, |pre| + SizeA(bs)) == pre + LayA(bs, SizeA(bs), 0) + post
  {
    hide Walks, LayA, SetNext, Sits, Op;
    var B, t, e := pre + LayA(bs, 0, 0) + post, LastA(bs), SizeA(bs);
    SitsMid(pre, LayA(bs, 0, 0), post);
    WalkA(B, |pre|, bs);
    assert Linked(B, |pre| + t, |pre| + e) == SetNext(B, |pre| + t, e - t);
    PatchA(bs, e);
    PatchInside(pre, LayA(bs, 0, 0), post, t, e - t);
    assert Linked(B, |pre| + t, |pre| + e) == pre + LayA(bs, e, 0) + post;
  }

  /** The walk reaches that BRANCH from the OPEN in front of the chain as well. */
  lemma WalkFromOpen(pre: seq<Byte>, paren: bool, no: nat, F: seq<Byte>, t: int)
    requires no < NSUBEXP
    requires Walks(pre + OpenNode(paren, no) + F, |pre| + |OpenNode(paren, no)|, t)
    ensures Walks(pre + OpenNode(paren, no) + F, |pre|, t)
  {
    hide Walks, Node;
    if paren {
      WalkFrom(pre, OPEN + no, 3, F, t);
    } else {
      assert pre + OpenNode(paren, no) == pre;
    }
  }

  /** The node in front of the alternatives, when there is one. */
  function OpenNode(paren: bool, no: nat): (r: seq<Byte>)
    ensures |r| == if paren then 3 else 0
  {
    if paren then Node((OPEN + no) % 256, 3) else []
  }

  /** Linking the body of branch d to the closing node. */
  lemma LinkBody(pre: seq<Byte>, bs: seq<Branch>, d: nat, op: Byte)
    requires WfA(bs) && d < |bs| && SizeA(bs) < LIMIT - 3
    ensures var e := SizeA(bs); var B := pre + LayA(bs, e, d) + Node(op, 0);
      var p := |pre| + BranchAt(bs, d); var t := p + 3 + TailB(bs[d].ps);
      && p + 3 <= |B| && Op(B, p) == BRANCH && Walks(B, p + 3, t) && Op(B, t) != BACK
      && Linked(B, t, |pre| + e) == pre + LayA(bs, e, d + 1) + Node(op, 0)
  {
    hide Walks, LayA, SetNext, Sits, Node, Op, LayB;
    var e := SizeA(bs);
    var B := pre + LayA(bs, e, d) + Node(op, 0);
    var b, t := BranchAt(bs, d), BranchAt(bs, d) + 3 + TailB(bs[d].ps);
    SitsMid(pre, LayA(bs, e, d), Node(op, 0));
    SitsBranch(B, |pre|, bs, e, d, d);
    SitsNode(B, |pre| + b, BRANCH, if d == |bs| - 1 then e - b else 3 + SizeB(bs[d].ps));
    WfNth(bs, d);
    WalkB(B, |pre| + b + 3, bs[d].ps);
    PatchBody(bs, e, d);
    PatchInside(pre, LayA(bs, e, d), Node(op, 0), t, e - t);
  }

  /** Where the next offset of branch d leads. */
  lemma NextBranch(pre: seq<Byte>, bs: seq<Branch>, d: nat, d': nat, op: Byte)
    requires d < |bs| && SizeA(bs) < LIMIT - 3
    ensures var e := SizeA(bs); var B := pre + LayA(bs, e, d') + Node(op, 0);
      var p := |pre| + BranchAt(bs, d);
      && p + 3 <= |B| && Op(B, p) == BRANCH && NextOff(B, p) != 0
      && p + NextOff(B, p) == |pre| + if d + 1 < |bs| then BranchAt(bs, d + 1) else e
  {
    hide LayA, Sits, Node, Op, LayB;
    BranchAfter(bs, d);
    var e := SizeA(bs);
    var B := pre + LayA(bs, e, d') + Node(op, 0);
    SitsMid(pre, LayA(bs, e, d'), Node(op, 0));
    SitsBranch(B, |pre|, bs, e, d', d);
    SitsNode(B, |pre| + BranchAt(bs, d), BRANCH, if d == |bs| - 1 then e - BranchAt(bs, d) else 3 + SizeB(bs[d].ps));
  }

  lemma WfNth(bs: seq<Branch>, i: nat)
    requires WfA(bs) && i < |bs|
    ensures WfB(bs[i].ps)
    decreases bs
  {
    if i > 0 {
      WfNth(bs[1..], i - 1);
    }
  }

  lemma WidthSnoc(bs: seq<Branch>, b: Branch)
    ensures WidthA(bs + [b]) == (WidthA(bs) && WidthB(b.ps))
    ensures SpStartA(bs + [b]) == (SpStartA(bs) || SpStartB(b.ps))
    decreases bs
  {
    if bs == [] {
      assert (bs + [b])[1..] == [];
    } else {
      assert (bs + [b])[1..] == bs[1..] + [b];
      WidthSnoc(bs[1..], b);
    }
  }

  lemma WidthSnocB(ps: seq<Piece>, x: Piece)
    ensures WidthB(ps + [x]) == (WidthB(ps) || WidthP(x))
    ensures SpStartB(ps + [x]) == if ps == [] then SpStartP(x) else SpStartB(ps)
    decreases ps
  {
    if ps == [] {
      assert (ps + [x])[1..] == [];
    } else {
      assert (ps + [x])[1..] == ps[1..] + [x];
      WidthSnocB(ps[1..], x);
    }
  }

  lemma Multiplying(op: Byte, x: Piece)
    requires IsMult(op)
    ensures SizeP(Multiplied(op, x)) >= SizeP(x)
    ensures WidthP(Multiplied(op, x)) == (op == PLUSCH) && SpStartP(Multiplied(op, x)) == (op != PLUSCH)
  {
  }

  lemma MakeStep(dummy: bool, a: seq<Byte>, b: seq<Byte>, F: seq<Byte>)
    requires |b| == |a| + |F| && (!dummy ==> b == a + F)
    ensures Step(dummy, a, b, F)
  {
  }

  lemma SimpleForms(pre: seq<Byte>, x: Piece)
    requires SimpleP(x)
    ensures pre + Node(STAR, 0) + LayP(x, 0) == pre + LayP(Star(x), 0)
    ensures pre + Node(PLUS, 0) + LayP(x, 0) == pre + LayP(Plus(x), 0)
    ensures SizeP(Star(x)) == SizeP(Plus(x)) == SizeP(x) + 3
  {
    hide Node;
  }

  /** The buffer after one more piece, before it is linked. */
  lemma PieceAfter(dummy: bool, pre: seq<Byte>, mid: seq<Byte>, ps: seq<Piece>, after: seq<Byte>, x: Piece)
    requires Step(dummy, pre, mid, LayPs(ps, 0)) && Step(dummy, mid, after, LayP(x, 0))
    ensures |after| == |pre| + SizePs(ps + [x])
    ensures SizePs(ps + [x]) == SizePs(ps) + SizeP(x)
    ensures !dummy ==> after == pre + LayPs(ps, 0) + LayP(x, 0)
    ensures ps == [] ==> Step(dummy, pre, after, LayPs([x], 0))
  {
    hide LayP, LayPs;
    SnocPs(ps, x, 0);
    SnocPs([], x, 0);
    assert [] + [x] == [x];
    if ps == [] {
      assert LayPs([x], 0) == LayPs([], 0) + LayP(x, 0);
    }
  }

  lemma LinkChain(dummy: bool, pre: seq<Byte>, init: seq<Piece>, last: Piece, x: Piece, out: seq<Byte>)
    requires WfB(init + [last])
    requires !dummy ==> SizePs(init + [last]) < LIMIT
    requires !dummy ==> out == pre + LayPs(init + [last], 0) + LayP(x, 0)
    ensures var s := |pre| + SizePs(init);
      && |pre| + SizePs(init + [last]) == s + SizeP(last)
      && (!dummy ==>
        && s + SizeP(last) <= |out|
        && Walks(out, s, s + TailP(last)) && Op(out, s + TailP(last)) != BACK
        && Linked(out, s + TailP(last), s + SizeP(last)) == pre + LayPs(init + [last] + [x], 0))
  {
    hide Walks, Linked, LayP, LayPs, SetNext;
    LastPieceForms(init, last, x);
    WfLast(init, last);
    if !dummy {
      var B, B' := LinkLastPiece(pre, init, last, x);
    }
  }

  lemma WfSnoc(ps: seq<Piece>, x: Piece)
    requires WfB(ps) && WfP(x)
    ensures WfB(ps + [x])
  {
    WfAppend(ps, [x]);
  }

  lemma WfLast(init: seq<Piece>, last: Piece)
    requires WfB(init + [last])
    ensures WfP(last)
    decreases init
  {
    if init != [] {
      assert (init + [last])[1..] == init[1..] + [last];
      WfLast(init[1..], last);
    }
  }

  /** There is room for the next piece when there is for the whole branch. */
  lemma BranchRoom(R: Parse<seq<Piece>>, ps: seq<Piece>, S: Parse<seq<Piece>>, p: Parse<Piece>)
    requires Continues(R, ps, S)
    requires p.Fail? ==> S.Fail?
    requires S.Ok? ==> S.val != [] && S.val[0] == p.val
    ensures R.Ok? ==> p.Ok? && SizePs(ps) + SizeP(p.val) <= SizePs(R.val)
  {
    if R.Ok? {
      SizePsAppend(ps, S.val);
    }
  }

  /** What reg emits: a group, or the whole pattern up to its END. */
  function LayReg(bs: seq<Branch>, paren: bool, no: nat): seq<Byte> {
    OpenNode(paren, no) + LayA(bs, SizeA(bs), |bs|) + Node(if paren then (CLOSE + no) % 256 else END, 0)
  }

  /** The OPEN node before it is linked to the first branch. */
  function OpenDangling(paren: bool, no: nat): (r: seq<Byte>)
    ensures |r| == if paren then 3 else 0
  {
    if paren then Node((OPEN + no) % 256, 0) else []
  }

  ghost predicate AltFlags(flags: Flags, bs: seq<Branch>) {
    flags.haswidth == WidthA(bs) && flags.spstart == SpStartA(bs)
  }

  lemma FirstFlags(flags: Flags, f: Flags, ps: seq<Piece>)
    requires BranchFlags(f, ps) && flags.haswidth == f.haswidth && flags.spstart == f.spstart
    ensures AltFlags(flags, [Branch(ps)])
  {
    assert [Branch(ps)][1..] == [];
  }

  lemma AltFlagsSnoc(flags: Flags, bs: seq<Branch>, f: Flags, b: Branch)
    requires AltFlags(flags, bs) && BranchFlags(f, b.ps)
    ensures AltFlags(Flags(flags.haswidth && f.haswidth, false, flags.spstart || f.spstart), bs + [b])
  {
    WidthSnoc(bs, b);
  }

  lemma OpenSize(before: seq<Byte>, out: seq<Byte>, paren: bool, no: nat)
    requires Step(false, before, out, OpenDangling(paren, no))
    ensures |out| == |before| + if paren then 3 else 0
  {
  }

  lemma NoNumber(bs: seq<Branch>, no: nat, no': nat)
    ensures LayReg(bs, false, no) == LayReg(bs, false, no')
  {
    assert LayReg(bs, false, no) == [] + LayA(bs, SizeA(bs), |bs|) + Node(END, 0);
    assert LayReg(bs, false, no') == [] + LayA(bs, SizeA(bs), |bs|) + Node(END, 0);
  }

  lemma LayOne(b: Branch)
    ensures LayA([b], 0, 0) == Node(BRANCH, 0) + LayB(b.ps, 0) && SizeA([b]) == 3 + SizeB(b.ps)
  {
    hide Node, LayB;
    assert [b][1..] == [];
    assert LayA([b], 0, 0) == Node(BRANCH, 0) + LayB(b.ps, 0) + LayA([b][1..], 0, -1);
  }

  /** Where the parse of the alternatives stands after bs of them. */
  predicate AltsSoFar(R: Parse<seq<Branch>>, bs: seq<Branch>, pat: Text, p: nat, npar: nat)
    requires p <= |pat|
  {
    if At(pat, p) == BAR || At(pat, p) == NL then Continues(R, bs, PAlts(pat, p + 1, npar))
    else R == Ok(bs, p, npar)
  }

  lemma FirstAlt(pat: Text, p: nat, npar: nat)
    requires p <= |pat|
    ensures var R, b := PAlts(pat, p, npar), PBranch(pat, p, npar);
      && (b.Fail? ==> R == Fail(b.error))
      && (b.Ok? ==> AltsSoFar(R, [Branch(b.val)], pat, b.pos, b.npar))
      && (R.Ok? ==> 3 + SizeB(b.val) <= SizeA(R.val) && R.val[0] == Branch(b.val))
  {
    var R, b := PAlts(pat, p, npar), PBranch(pat, p, npar);
    if b.Ok? && !(At(pat, b.pos) == BAR || At(pat, b.pos) == NL) {
      LayOne(Branch(b.val));
    }
  }

  lemma NextAlt(R: Parse<seq<Branch>>, bs: seq<Branch>, pat: Text, p: nat, npar: nat)
    requires p < |pat| && (At(pat, p) == BAR || At(pat, p) == NL) && AltsSoFar(R, bs, pat, p, npar)
    ensures var b := PBranch(pat, p + 1, npar);
      && (b.Fail? ==> R == Fail(b.error))
      && (b.Ok? ==> AltsSoFar(R, bs + [Branch(b.val)], pat, b.pos, b.npar))
      && (R.Ok? ==> SizeA(bs) + 3 + SizeB(b.val) <= SizeA(R.val))
  {
    var S, b := PAlts(pat, p + 1, npar), PBranch(pat, p + 1, npar);
    FirstAlt(pat, p + 1, npar);
    if b.Ok? {
      if R.Ok? {
        SizeAAppend(bs, S.val);
      }
      if At(pat, b.pos) == BAR || At(pat, b.pos) == NL {
        ContinueMore(R, bs, S, [Branch(b.val)], PAlts(pat, b.pos + 1, b.npar));
      }
    }
  }

  lemma LastAlt(R: Parse<seq<Branch>>, bs: seq<Branch>, pat: Text, p: nat, npar: nat)
    requires p <= |pat| && At(pat, p) != BAR && At(pat, p) != NL && AltsSoFar(R, bs, pat, p, npar)
    ensures R == Ok(bs, p, npar)
  {
  }

  /** The buffer when a further branch has been emitted, and what linking makes of it. */
  lemma AltBuffer(before: seq<Byte>, paren: bool, no: nat, mid: seq<Byte>, bs: seq<Branch>, b: Branch, out: seq<Byte>)
    returns (t: nat, B': seq<Byte>)
    requires no < NSUBEXP && bs != [] && |out| < LIMIT
    requires Step(false, before, mid, OpenNode(paren, no) + LayA(bs, 0, 0))
    requires Step(false, mid, out, Node(BRANCH, 0) + LayB(b.ps, 0))
    ensures t == |before| + |OpenNode(paren, no)| + LastA(bs) && t + 3 <= |mid| < |out|
    ensures Walks(out, |before|, t) && Op(out, t) != BACK && Linked(out, t, |mid|) == B'
    ensures B' == before + (OpenNode(paren, no) + LayA(bs + [b], 0, 0))
  {
    hide Node, LayB, LayA, Walks, Linked, OpenNode, SetNext, Op, Step;
    var F := Node(BRANCH, 0) + LayB(b.ps, 0);
    t := |before| + |OpenNode(paren, no)| + LastA(bs);
    StepSize(false, before, mid, OpenNode(paren, no) + LayA(bs, 0, 0));
    StepSize(false, mid, out, F);
    var B;
    B, B' := AltLink(before, paren, no, bs, F);
    assert out == B by {
      AltForms(before, OpenNode(paren, no), LayA(bs, 0, 0), [], F);
    }
    assert B' == before + (OpenNode(paren, no) + LayA(bs + [b], 0, 0)) by {
      SnocA'(bs, b);
      AltForms(before, OpenNode(paren, no), [], LayA(bs, SizeA(bs), 0), F);
    }
  }

  lemma AltForms(a: seq<Byte>, H: seq<Byte>, L: seq<Byte>, L': seq<Byte>, F: seq<Byte>)
    ensures a + (H + L) + F == a + H + L + F
    ensures a + H + L' + F == a + (H + (L' + F))
  {
  }

  lemma AltLink(before: seq<Byte>, paren: bool, no: nat, bs: seq<Branch>, F: seq<Byte>)
    returns (B: seq<Byte>, B': seq<Byte>)
    requires no < NSUBEXP && bs != [] && SizeA(bs) < LIMIT
    ensures B == before + OpenNode(paren, no) + LayA(bs, 0, 0) + F
    ensures B' == before + OpenNode(paren, no) + LayA(bs, SizeA(bs), 0) + F
    ensures var a := |before| + |OpenNode(paren, no)|; var t := a + LastA(bs);
      && t + 3 <= |B| && Walks(B, |before|, t) && Op(B, t) != BACK && Linked(B, t, a + SizeA(bs)) == B'
  {
    hide Node, LayA, Walks, Linked, OpenNode, SetNext, Op;
    var pre := before + OpenNode(paren, no);
    B := pre + LayA(bs, 0, 0) + F;
    B' := pre + LayA(bs, SizeA(bs), 0) + F;
    LinkAlts(pre, bs, F);
    assert B == pre + (LayA(bs, 0, 0) + F);
    WalkFromOpen(before, paren, no, LayA(bs, 0, 0) + F, |pre| + LastA(bs));
  }

  /** Where the loop over the branches stands: at the OPEN, at a branch, at the closing
      node, or past it. */
  datatype Spot = AtOpen | AtBranch(i: nat) | AtEnder | Past

  function SpotAddr(spot: Spot, a: nat, h: nat, bs: seq<Branch>): (r: nat)
    requires spot.AtBranch? ==> spot.i < |bs|
  {
    match spot
    case AtOpen => a
    case AtBranch(i) => a + h + BranchAt(bs, i)
    case _ => a + h + SizeA(bs)
  }

  /** How many branches have been linked to the closing node when at this spot. */
  function Done(spot: Spot, n: nat): nat {
    match spot
    case AtOpen => 0
    case AtBranch(i) => i
    case _ => n
  }

  function NextSpot(spot: Spot, n: nat): Spot {
    match spot
    case AtOpen => AtBranch(0)
    case AtBranch(i) => if i + 1 < n then AtBranch(i + 1) else AtEnder
    case _ => Past
  }

  /** The buffer with the first d branches linked to the closing node. */
  function Closing(before: seq<Byte>, H: seq<Byte>, bs: seq<Branch>, d: int, op: Byte): seq<Byte> {
    before + H + LayA(bs, SizeA(bs), d) + Node(op, 0)
  }

  lemma SizeClosing(before: seq<Byte>, H: seq<Byte>, bs: seq<Branch>, d: int, op: Byte)
    ensures |Closing(before, H, bs, d, op)| == |before| + |H| + SizeA(bs) + 3
  {
  }

  /** The closing node goes on the end of the chain of branches. */
  lemma CloseChain(before: seq<Byte>, paren: bool, no: nat, bs: seq<Branch>, op: Byte)
    returns (B: seq<Byte>)
    requires no < NSUBEXP && bs != [] && SizeA(bs) < LIMIT
    ensures B == before + (OpenNode(paren, no) + LayA(bs, 0, 0)) + Node(op, 0)
    ensures var a := |before| + |OpenNode(paren, no)|; var t := a + LastA(bs);
      && t + 3 <= |B| && Walks(B, |before|, t) && Op(B, t) != BACK
      && Linked(B, t, a + SizeA(bs)) == Closing(before, OpenNode(paren, no), bs, 0, op)
  {
    hide Node, LayA, Walks, Linked, OpenNode, SetNext, Op;
    B := before + (OpenNode(paren, no) + LayA(bs, 0, 0)) + Node(op, 0);
    var C, C' := AltLink(before, paren, no, bs, Node(op, 0));
    assert B == C;
  }

  /** One round of the loop over the branches: the body, when there is one, is linked,
      and the next offset leads on to the next spot. */
  ghost predicate Round(B: seq<Byte>, B': seq<Byte>, spot: Spot, before: seq<Byte>, h: nat, bs: seq<Branch>)
    requires spot.AtBranch? ==> spot.i < |bs|
  {
    var a := SpotAddr(spot, |before|, h, bs);
    var e := |before| + h + SizeA(bs);
    && bs != [] && |B| == |B'| == e + 3 && a + 3 <= |B|
    && (Op(B, a) == BRANCH <==> spot.AtBranch?)
    && (if spot.AtBranch? then
          var t := a + 3 + TailB(bs[spot.i].ps);
          t + 3 <= e && Walks(B, a + 3, t) && Op(B, t) != BACK && Linked(B, t, e) == B'
        else B == B')
    && Op(B', a) != BACK
    && (spot.AtEnder? <==> NextOff(B', a) == 0)
    && (!spot.AtEnder? ==> a + NextOff(B', a) == SpotAddr(NextSpot(spot, |bs|), |before|, h, bs))
  }

  lemma CloseRound(before: seq<Byte>, paren: bool, no: nat, bs: seq<Branch>, op: Byte, spot: Spot)
    requires no < NSUBEXP && bs != [] && WfA(bs) && SizeA(bs) < LIMIT - 3 && op != BRANCH && op != BACK
    requires (spot.AtOpen? ==> paren) && (spot.AtBranch? ==> spot.i < |bs|) && !spot.Past?
    ensures var H := OpenNode(paren, no);
      Round(Closing(before, H, bs, Done(spot, |bs|), op), Closing(before, H, bs, Done(NextSpot(spot, |bs|), |bs|), op),
            spot, before, |H|, bs)
  {
    hide Node, LayA, Walks, Linked, OpenNode, Op, NextOff, Closing, SetNext, Round, WfA, SizeA;
    match spot
    case AtOpen => CloseOpen(before, no, bs, op);
    case AtBranch(i) => CloseBranch(before, OpenNode(paren, no), bs, op, i);
    case AtEnder => CloseEnder(before, OpenNode(paren, no), bs, op);
  }

  lemma CloseOpen(before: seq<Byte>, no: nat, bs: seq<Branch>, op: Byte)
    requires no < NSUBEXP && bs != []
    ensures var B := Closing(before, OpenNode(true, no), bs, 0, op); Round(B, B, AtOpen, before, 3, bs)
  {
    hide Node, LayA, Walks, Linked, OpenNode, Op, NextOff, Closing, SetNext, SizeA;
    SizeClosing(before, OpenNode(true, no), bs, 0, op);
    RoundOpen(before, no, bs, op);
  }

  lemma CloseEnder(before: seq<Byte>, H: seq<Byte>, bs: seq<Branch>, op: Byte)
    requires bs != [] && op != BRANCH && op != BACK
    ensures var B := Closing(before, H, bs, |bs|, op); Round(B, B, AtEnder, before, |H|, bs)
  {
    hide Node, LayA, Walks, Linked, Op, NextOff, Closing, SetNext, SizeA;
    RoundEnder(before, H, bs, op);
  }

  lemma CloseBranch(before: seq<Byte>, H: seq<Byte>, bs: seq<Branch>, op: Byte, i: nat)
    requires i < |bs| && WfA(bs) && SizeA(bs) < LIMIT - 3
    ensures Round(Closing(before, H, bs, i, op), Closing(before, H, bs, i + 1, op), AtBranch(i), before, |H|, bs)
  {
    hide Node, LayA, Walks, Linked, Op, NextOff, Closing, SetNext, WfA, SizeA;
    RoundBranch(before, H, bs, op, i);
  }

  lemma RoundOpen(before: seq<Byte>, no: nat, bs: seq<Branch>, op: Byte)
    requires no < NSUBEXP
    ensures var B := Closing(before, OpenNode(true, no), bs, 0, op);
      |before| + 3 <= |B| && Op(B, |before|) == OPEN + no && NextOff(B, |before|) == 3
  {
    hide Node, LayA, OpenNode, Op, NextOff;
    OpenLeads(before, no, LayA(bs, SizeA(bs), 0), Node(op, 0));
  }

  lemma RoundEnder(before: seq<Byte>, H: seq<Byte>, bs: seq<Branch>, op: Byte)
    ensures var B := Closing(before, H, bs, |bs|, op); var e := |before| + |H| + SizeA(bs);
      |B| == e + 3 && Op(B, e) == op && NextOff(B, e) == 0
  {
    hide Node, LayA, Op, NextOff;
    EnderEnds(before + H + LayA(bs, SizeA(bs), |bs|), op);
  }

  lemma RoundBranch(before: seq<Byte>, H: seq<Byte>, bs: seq<Branch>, op: Byte, i: nat)
    requires i < |bs| && WfA(bs) && SizeA(bs) < LIMIT - 3
    ensures var B, B' := Closing(before, H, bs, i, op), Closing(before, H, bs, i + 1, op);
      var e := |before| + |H| + SizeA(bs);
      var a := |before| + |H| + BranchAt(bs, i);
      var t := a + 3 + TailB(bs[i].ps);
      && |B| == |B'| == e + 3 && t + 3 <= e
      && Op(B, a) == Op(B', a) == BRANCH && NextOff(B', a) != 0
      && Walks(B, a + 3, t) && Op(B, t) != BACK && Linked(B, t, e) == B'
      && a + NextOff(B', a) == (if i + 1 < |bs| then |before| + |H| + BranchAt(bs, i + 1) else e)
  {
    hide Node, LayA, Op, NextOff, Walks, Linked;
    LinkBody(before + H, bs, i, op);
    NextBranch(before + H, bs, i, i + 1, op);
  }

  lemma OpenLeads(before: seq<Byte>, no: nat, F: seq<Byte>, G: seq<Byte>)
    requires no < NSUBEXP
    ensures var B := before + OpenNode(true, no) + F + G;
      Op(B, |before|) == OPEN + no && NextOff(B, |before|) == 3
  {
    hide Node;
    var B := before + OpenNode(true, no) + F + G;
    assert B == before + Node(OPEN + no, 3) + (F + G);
    SitsMid(before, Node(OPEN + no, 3), F + G);
    SitsNode(B, |before|, OPEN + no, 3);
  }

  lemma EnderEnds(F: seq<Byte>, op: Byte)
    ensures Op(F + Node(op, 0), |F|) == op && NextOff(F + Node(op, 0), |F|) == 0
  {
    hide Node;
    assert F + Node(op, 0) == F + Node(op, 0) + [];
    SitsMid(F, Node(op, 0), []);
    SitsNode(F + Node(op, 0), |F|, op, 0);
  }

  /** Rounds left. */
  function Left(spot: Spot, n: nat): int {
    match spot
    case AtOpen => n + 3
    case AtBranch(i) => n - i + 2
    case AtEnder => 1
    case Past => 0
  }

  lemma ClosedForm(before: seq<Byte>, H: seq<Byte>, bs: seq<Branch>, op: Byte)
    ensures Closing(before, H, bs, |bs|, op) == before + (H + LayA(bs, SizeA(bs), |bs|) + Node(op, 0))
  {
    hide LayA, Node;
  }
}
