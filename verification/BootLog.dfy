/**
 * The rotating boot log over a file system whose calls may fail: opening,
 * stat, rename and write. Lines are opaque; each has a size in bytes.
 */
module BootLog {

  datatype Line = Line(text: string, size: nat)

  /** Which of the calls one Persist may make would fail. */
  datatype Faults = Faults(open: bool, marshal: bool, stat: bool, rename: bool, reopen: bool, write: bool)

  datatype Op = Append(line: Line, faults: Faults) | Shut

  /** The two files and the handle; the last two fields are history. */
  datatype View = View(
    open: bool,
    current: seq<Line>,
    rotated: seq<Line>,
    written: seq<Line>,       // every line whose write succeeded
    sound: bool)              // no stat or rename has failed so far

  const DEFAULT_MAX_BYTES := 1_048_576

  function Bytes(lines: seq<Line>): nat {
    if |lines| == 0 then 0 else Bytes(lines[..|lines| - 1]) + lines[|lines| - 1].size
  }

  function Rotated(v: View, incoming: nat, maxBytes: nat, f: Faults): View {
    if f.stat then v.(sound := false)
    else if Bytes(v.current) + incoming <= maxBytes then v
    else
      var moved := if f.rename then v.(sound := false) else v.(rotated := v.current, current := []);
      moved.(open := !f.reopen)
  }

  function Step(v: View, op: Op, maxBytes: nat): View {
    match op
    case Shut => v.(open := false)
    case Append(line, f) =>
      if !v.open && f.open then v
      else if f.marshal then v.(open := true)
      else
        var r := Rotated(v.(open := true), line.size, maxBytes, f);
        if !r.open || f.write then r
        else r.(current := r.current + [line], written := r.written + [line])
  }

  /** A file that cannot be measured or still has room stays; any other is moved aside, unless the rename fails. */
  lemma RotationReads(v: View, incoming: nat, maxBytes: nat, f: Faults)
    ensures var r := Rotated(v, incoming, maxBytes, f);
      if f.stat || Bytes(v.current) + incoming <= maxBytes then
        r.open == v.open && r.current == v.current && r.rotated == v.rotated
      else
        && r.open == !f.reopen
        && r.current == (if f.rename then v.current else [])
        && r.rotated == (if f.rename then v.rotated else v.current)
  {
  }

  /**
   * The line goes to the end of the current file when every call it takes
   * works; a file that would grow too large is moved aside first, in place of
   * the one moved before.
   */
  predicate Appends(v: View, v': View, line: Line, maxBytes: nat, f: Faults) {
    var reached := (v.open || !f.open) && !f.marshal;
    var rotates := reached && !f.stat && Bytes(v.current) + line.size > maxBytes;
    var wrote := reached && !(rotates && f.reopen) && !f.write;
    && v'.current == (if rotates && !f.rename then [] else v.current) + (if wrote then [line] else [])
    && v'.rotated == (if rotates && !f.rename then v.current else v.rotated)
    && v'.written == v.written + (if wrote then [line] else [])
    && v'.open == ((v.open || !f.open) && !(rotates && f.reopen))
    && v'.sound == (v.sound && !(reached && f.stat) && !(rotates && f.rename))
  }

  lemma StepAppends(v: View, line: Line, maxBytes: nat, f: Faults)
    ensures Appends(v, Step(v, Append(line, f), maxBytes), line, maxBytes, f)
  {
  }

  /** s is what remains of all after dropping a prefix. */
  predicate IsSuffix(s: seq<Line>, all: seq<Line>) {
    |s| <= |all| && all[|all| - |s|..] == s
  }

  /** Nothing in the middle is ever lost, and without faults the current file is bounded. */
  predicate Kept(v: View, maxBytes: nat) {
    && IsSuffix(v.rotated + v.current, v.written)
    && (v.sound ==> Bytes(v.current) <= maxBytes || |v.current| == 1)
  }

  lemma RotationKeeps(v: View, incoming: nat, maxBytes: nat, f: Faults)
    requires Kept(v, maxBytes)
    ensures var r := Rotated(v, incoming, maxBytes, f);
      && Kept(r, maxBytes)
      && (r.sound ==> Bytes(r.current) + incoming <= maxBytes || r.current == [])
  {
    if !f.stat && !f.rename {
      var kept := v.rotated + v.current;
      assert kept[|v.rotated|..] == v.current;
      assert v.written[|v.written| - |v.current|..] == v.written[|v.written| - |kept|..][|v.rotated|..];
      assert v.current + [] == v.current;
    }
  }

  lemma WriteKeeps(r: View, line: Line, maxBytes: nat)
    requires Kept(r, maxBytes)
    requires r.sound ==> Bytes(r.current) + line.size <= maxBytes || r.current == []
    ensures Kept(r.(current := r.current + [line], written := r.written + [line]), maxBytes)
  {
    var kept := r.rotated + r.current;
    assert r.rotated + (r.current + [line]) == kept + [line];
    assert (r.written + [line])[|r.written| - |kept|..] == kept + [line];
    assert (r.current + [line])[..|r.current|] == r.current;
  }

  lemma StepKeeps(v: View, op: Op, maxBytes: nat)
    requires Kept(v, maxBytes)
    ensures Kept(Step(v, op, maxBytes), maxBytes)
  {
    if op.Append? {
      RotationKeeps(v.(open := true), op.line.size, maxBytes, op.faults);
      var r := Rotated(v.(open := true), op.line.size, maxBytes, op.faults);
      if r.open && !op.faults.write {
        WriteKeeps(r, op.line, maxBytes);
      }
    }
  }

  lemma NextView(v: View, op: Op, maxBytes: nat) returns (next: View)
    requires Kept(v, maxBytes)
    ensures next == Step(v, op, maxBytes) && Kept(next, maxBytes)
  {
    StepKeeps(v, op, maxBytes);
    next := Step(v, op, maxBytes);
  }

  class BootLogger {
    const maxBytes: nat
    var file: bool              // whether the handle is open
    var resolved: bool          // a failed open has been reported
    var current: seq<Line>
    var rotated: seq<Line>
    ghost var written: seq<Line>
    ghost var sound: bool

    ghost function State(): View
      reads this
    {
      View(file, current, rotated, written, sound)
    }

    ghost predicate Valid()
      reads this
    {
      maxBytes > 0 && Kept(State(), maxBytes)
    }

    constructor (limit: int)
      ensures Valid() && State() == View(false, [], [], [], true)
      ensures maxBytes == if limit <= 0 then DEFAULT_MAX_BYTES else limit
    {
      maxBytes := if limit <= 0 then DEFAULT_MAX_BYTES else limit;
      file, resolved, current, rotated := false, false, [], [];
      written, sound := [], true;
    }

    method Persist(line: Line, f: Faults)
      requires Valid()
      modifies this
      ensures Valid()
      ensures State() == Step(old(State()), Append(line, f), maxBytes)
      ensures resolved == (old(resolved) || (!old(file) && f.open) || (!file && !f.marshal))
    {
      ghost var next := NextView(State(), Append(line, f), maxBytes);
      if !file {
        Open(f.open);
        if !file {
          return;
        }
      }
      if f.marshal {
        return;
      }
      RotateIfNeeded(line.size, f);
      if !file {
        return;
      }
      if !f.write {
        current := current + [line];
        written := written + [line];
      }
    }

    method Open(fails: bool)
      requires !file
      modifies this`file, this`resolved
      ensures file == !fails && resolved == (old(resolved) || fails)
    {
      if fails {
        resolved := true;
      } else {
        file := true;
      }
    }

    method RotateIfNeeded(incoming: nat, f: Faults)
      requires file
      modifies this
      ensures State() == Rotated(old(State()), incoming, maxBytes, f)
      ensures resolved == (old(resolved) || !file)
    {
      if f.stat {
        sound := false;
        return;
      }
      if Bytes(current) + incoming <= maxBytes {
        return;
      }
      file := false;
      if f.rename {
        sound := false;
      } else {
        rotated := current;
        current := [];
      }
      Open(f.reopen);
    }

    method Close()
      requires Valid()
      modifies this`file
      ensures Valid() && State() == Step(old(State()), Shut, maxBytes)
      ensures !file
    {
      file := false;
    }
  }

  function StepAll(v: View, ops: seq<Op>, maxBytes: nat): View {
    if |ops| == 0 then v else Step(StepAll(v, ops[..|ops| - 1], maxBytes), ops[|ops| - 1], maxBytes)
  }

  /** The lines whose writes succeeded, in order, are what the two files end with. */
  lemma {:induction false} FilesAreASuffix(ops: seq<Op>, maxBytes: nat)
    ensures var v := StepAll(View(false, [], [], [], true), ops, maxBytes);
      && IsSuffix(v.rotated + v.current, v.written)
      && (v.sound ==> Bytes(v.current) <= maxBytes || |v.current| == 1)
  {
    if |ops| > 0 {
      FilesAreASuffix(ops[..|ops| - 1], maxBytes);
      StepKeeps(StepAll(View(false, [], [], [], true), ops[..|ops| - 1], maxBytes), ops[|ops| - 1], maxBytes);
    }
  }

  predicate CanFault(op: Op) {
    op.Append? && (op.faults.stat || op.faults.rename)
  }

  /** The bound only needs that no stat and no rename fails; opens and writes may. */
  lemma {:induction false} SoundWithoutFaults(ops: seq<Op>, maxBytes: nat)
    requires forall i | 0 <= i < |ops| :: !CanFault(ops[i])
    ensures StepAll(View(false, [], [], [], true), ops, maxBytes).sound
  {
    if |ops| > 0 {
      assert !CanFault(ops[|ops| - 1]);
      SoundWithoutFaults(ops[..|ops| - 1], maxBytes);
    }
  }
}
