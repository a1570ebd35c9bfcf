/** A set of cpus as a fixed number of bits, changed in place. */
module CpuSet {
  import opened Common
  import opened ListFormat

  /** How a change ends; an overrun is a range whose loop never meets its end. */
  datatype Outcome = Done | CpuOutOfRange | Overrun

  class CpuSet {
    const bits: array<bool>

    ghost function Contents(): (cpus: seq<bool>)
      reads bits
    {
      bits[..]
    }

    constructor (capacity: nat)
      ensures fresh(bits) && bits.Length == capacity
      ensures Contents() == Empty(capacity)
    {
      bits := new bool[capacity](_ => false);
    }

    /** Add one cpu; nothing changes when it is out of range. */
    method Add(cpu: int) returns (r: Outcome)
      modifies bits
      ensures r == if 0 <= cpu < bits.Length then Done else CpuOutOfRange
      ensures Contents() == if r == Done then old(Contents())[cpu := true] else old(Contents())
    {
      if cpu < 0 || cpu >= bits.Length {
        return CpuOutOfRange;
      }
      bits[cpu] := true;
      return Done;
    }

    method Remove(cpu: int) returns (r: Outcome)
      modifies bits
      ensures r == if 0 <= cpu < bits.Length then Done else CpuOutOfRange
      ensures Contents() == if r == Done then old(Contents())[cpu := false] else old(Contents())
    {
      if cpu < 0 || cpu >= bits.Length {
        return CpuOutOfRange;
      }
      bits[cpu] := false;
      return Done;
    }

    /** Add a range of cpus, unless one of its ends is out of range. */
    method AddAll(cpulo: int, cpuhi: int) returns (r: Outcome)
      modifies bits
      ensures r == CpuOutOfRange <==> cpulo < 0 || cpuhi < 0 || bits.Length <= cpuhi
      ensures r == Overrun <==> 0 <= cpuhi < bits.Length && cpuhi + 1 < cpulo
      ensures forall i | 0 <= i < bits.Length ::
                bits[i] == if r == Done && cpulo <= i <= cpuhi then true else old(bits[i])
    {
      if cpulo < 0 || cpuhi < 0 || cpuhi >= bits.Length {
        return CpuOutOfRange;
      }
      if cpulo > cpuhi + 1 {
        return Overrun;
      }
      var i := cpulo;
      while i != cpuhi + 1
        invariant cpulo <= i <= cpuhi + 1
        invariant forall j | 0 <= j < bits.Length ::
                    bits[j] == if cpulo <= j < i then true else old(bits[j])
      {
        bits[i] := true;
        i := i + 1;
      }
      return Done;
    }

    /** Remove a range of cpus, unless one of its ends is out of range. */
    method RemoveAll(cpulo: int, cpuhi: int) returns (r: Outcome)
      modifies bits
      ensures r == CpuOutOfRange <==> cpulo < 0 || cpuhi < 0 || bits.Length <= cpuhi
      ensures r == Overrun <==> 0 <= cpuhi < bits.Length && cpuhi + 1 < cpulo
      ensures forall i | 0 <= i < bits.Length ::
                bits[i] == if r == Done && cpulo <= i <= cpuhi then false else old(bits[i])
    {
      if cpulo < 0 || cpuhi < 0 || cpuhi >= bits.Length {
        return CpuOutOfRange;
      }
      if cpulo > cpuhi + 1 {
        return Overrun;
      }
      var i := cpulo;
      while i != cpuhi + 1
        invariant cpulo <= i <= cpuhi + 1
        invariant forall j | 0 <= j < bits.Length ::
                    bits[j] == if cpulo <= j < i then false else old(bits[j])
      {
        bits[i] := false;
        i := i + 1;
      }
      return Done;
    }

    /** Keep the cpus that are also in `rhs`; the two sets may be the same object. */
    method And(rhs: CpuSet)
      requires rhs.bits.Length == bits.Length
      modifies bits
      ensures forall i | 0 <= i < bits.Length :: bits[i] == (old(bits[i]) && old(rhs.bits[i]))
    {
      forall i | 0 <= i < bits.Length {
        bits[i] := bits[i] && rhs.bits[i];
      }
    }

    method Or(rhs: CpuSet)
      requires rhs.bits.Length == bits.Length
      modifies bits
      ensures forall i | 0 <= i < bits.Length :: bits[i] == (old(bits[i]) || old(rhs.bits[i]))
    {
      forall i | 0 <= i < bits.Length {
        bits[i] := bits[i] || rhs.bits[i];
      }
    }

    method Xor(rhs: CpuSet)
      requires rhs.bits.Length == bits.Length
      modifies bits
      ensures forall i | 0 <= i < bits.Length :: bits[i] == (old(bits[i]) != old(rhs.bits[i]))
    {
      forall i | 0 <= i < bits.Length {
        bits[i] := bits[i] != rhs.bits[i];
      }
    }

    /** The set in list format. */
    method AsListFormat() returns (os: string)
      requires bits.Length <= INT_MAX
      ensures os == Printed(Contents())
    {
      ghost var cpus := Contents();
      ghost var printed: seq<Range> := [];
      os := "";
      var sep := "";
      var i := 0;
      while i < bits.Length
        invariant Progress(cpus, printed, i)
        invariant os == ListText(printed, bits.Length)
        invariant sep == if printed == [] then "" else ","
        decreases bits.Length - i
      {
        if bits[i] {
          var text := Decimal(i);
          var end := i;
          while end < bits.Length && bits[end]
            invariant i <= end <= bits.Length
            invariant RunEnd(cpus, end) == RunEnd(cpus, i)
          {
            end := end + 1;
          }
          ghost var run := Range(i, end - 1);
          PrintRun(cpus, printed, i);
          if end != i + 1 || end == bits.Length {
            i := end;
            text := text + "-" + Decimal(end - 1);
          }
          ListTextAppend(printed, run, bits.Length, os, sep, text);
          os, sep := os + sep + text, ",";
          printed := printed + [run];
        } else {
          SkipAbsent(cpus, printed, i);
        }
        i := i + 1;
      }
      assert printed + [] == printed;
    }

    /** Read a set in list format. */
    static method Parse(value: string, capacity: nat) returns (r: Result<CpuSet, ParseError>)
      ensures r.Ok? ==> fresh(r.value) && fresh(r.value.bits)
      ensures match Parsed(value, capacity)
              case Ok(cpus) => r.Ok? && r.value.Contents() == cpus
              case Err(e) => r == Err(e)
    {
      var tmp := new CpuSet(capacity);
      var rest := value;
      while rest != []
        invariant fresh(tmp) && fresh(tmp.bits) && tmp.bits.Length == capacity
        invariant Parsed(value, capacity) == AddText(tmp.Contents(), rest)
        decreases |rest|
      {
        var comma := Find(rest, ',');
        var added := tmp.ParseElement(rest[..comma]);
        if added.Err? {
          return Err(added.error);
        }
        rest := if comma < |rest| then rest[comma + 1..] else [];
      }
      return Ok(tmp);
    }

    /** Read one element of a list and add it to the set. */
    method ParseElement(element: string) returns (r: Result<(), ParseError>)
      modifies bits
      ensures match AddElement(old(Contents()), element)
              case Ok(cpus) => r.Ok? && Contents() == cpus
              case Err(e) => r == Err(e) && Contents() == old(Contents())
    {
      var dash := Find(element, '-');
      var lo := element[..dash];
      if dash == |element| {
        assert lo == element;
        var cpu := StrToNum(lo);
        if cpu.None? {
          return Err(InvalidArgument);
        }
        var outcome := Add(cpu.value);
        if outcome == CpuOutOfRange {
          return Err(OutOfRange);
        }
        assert Contents() == WithRange(old(Contents()), cpu.value, cpu.value);
        return Ok(());
      }
      var hi := element[dash + 1..];
      if hi == [] || '-' in hi {
        return Err(InvalidArgument);
      }
      var cpulo, cpuhi := StrToNum(lo), StrToNum(hi);
      if cpulo.None? || cpuhi.None? {
        return Err(InvalidArgument);
      }
      var outcome := AddAll(cpulo.value, cpuhi.value);
      if outcome != Done {
        return Err(if outcome == Overrun then RangeOverrun else OutOfRange);
      }
      assert Contents() == WithRange(old(Contents()), cpulo.value, cpuhi.value);
      return Ok(());
    }
  }
}
