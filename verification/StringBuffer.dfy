/** cfustring: a growable NUL-terminated buffer. */
module StringBuffers {
  import opened Options

  const NUL: char := '\0'

  // A C string without its terminator.
  type CString = s: string | NUL !in s

  // The buffer as a value: its text (None while no memory is allocated), the bytes
  // allocated, and the bytes all reallocations have copied so far.
  datatype Buffer = Buffer(text: Option<CString>, maxSize: nat, copied: nat) {
    function Contents(): CString {
      if text.Some? then text.value else ""
    }

    function UsedSize(): nat {
      if text.Some? then |text.value| + 1 else 0
    }
  }

  function Fresh(initialSize: nat): Buffer {
    if initialSize > 0 then Buffer(Some(""), initialSize, 0) else Buffer(None, 0, 0)
  }

  // Doubling, or exactly what is needed if doubling is not enough.
  function Grow(size: nat, need: nat): nat {
    if need <= size then size else if 2 * size >= need then 2 * size else need
  }

  function Appended(b: Buffer, s: CString): Buffer {
    var t := b.Contents();
    var size := if b.text.Some? then b.maxSize else |s| + 1;
    var grown := Grow(size, |t| + 1 + |s| + 1);
    Buffer(Some(t + s), grown, b.copied + if grown == size then 0 else |t| + 1)
  }

  function Cleared(b: Buffer): Buffer {
    b.(text := if b.text.Some? then Some("") else None)
  }

  function Max(a: nat, b: nat): nat {
    if a < b then b else a
  }

  // The part of s that append_n takes: n characters, or all of it for n == 0.
  function Part(s: CString, n: nat): CString {
    if n == 0 || n > |s| then s else s[..n]
  }

  // memcpy of n characters, and how many were copied.
  method CopyTo(to: array<char>, from: array<char>, n: nat) returns (ghost copied: nat)
    requires n <= from.Length && n <= to.Length && to != from
    modifies to
    ensures to[..n] == from[..n] && copied == n
  {
    copied := 0;
    for i := 0 to n
      invariant copied == i && to[..i] == from[..i]
    {
      to[i] := from[i];
      copied := copied + 1;
    }
  }

  // memcpy of s and a terminator to position at.
  method Paste(str: array<char>, at: nat, s: CString)
    requires at + |s| < str.Length
    modifies str
    ensures str[..at + |s| + 1] == old(str[..at]) + s + [NUL]
  {
    forall i | 0 <= i < |s| {
      str[at + i] := s[i];
    }
    str[at + |s|] := NUL;
  }

  class StringBuffer {
    var str: array?<char>
    var maxSize: nat
    var usedSize: nat
    ghost var buf: Buffer
    ghost var copied: nat // characters copied by reallocations

    ghost predicate Valid()
      reads this, str
    {
      && copied == buf.copied && maxSize == buf.maxSize && usedSize == buf.UsedSize()
      && (str == null <==> buf.text.None?)
      && (str == null ==> maxSize == 0)
      && (str != null ==>
            str.Length == maxSize && usedSize <= maxSize && str[..usedSize] == buf.Contents() + [NUL])
    }

    ghost function Repr(): set<object>
      reads this
    {
      if str == null then {this} else {this, str}
    }

    // cfustring_new_with_initial_size
    constructor (initialSize: nat)
      ensures Valid() && fresh(Repr()) && buf == Fresh(initialSize)
      ensures maxSize == initialSize && buf.text == if initialSize > 0 then Some("") else None
    {
      str, maxSize, usedSize := null, 0, 0;
      if initialSize > 0 {
        str := new char[initialSize](_ => NUL);
        maxSize, usedSize := initialSize, 1;
      }
      buf, copied := Fresh(initialSize), 0;
    }

    // cfustring_clear
    method Clear()
      requires Valid()
      modifies this, str
      ensures Valid() && str == old(str) && buf == Cleared(old(buf))
      ensures buf.Contents() == "" && maxSize == old(maxSize) && copied == old(copied)
    {
      if str != null {
        str[0] := NUL;
        usedSize := 1;
      }
      buf := Cleared(buf);
    }

    // The length of that part. The scan never advances its pointer, so an n beyond
    // the end of a non-empty string would make the copy run past it.
    static method PartLength(s: CString, n: nat) returns (len: nat)
      requires n <= |s| || s == ""
      ensures len == (if n == 0 then |s| else if s == "" then 0 else n) && s[..len] == Part(s, n)
    {
      len := 0;
      if n > 0 {
        var i := 0;
        while i < n
          invariant i <= n && (s == "" ==> len == 0) && (s != "" ==> len == i)
        {
          if s == "" {
            break;
          }
          len, i := len + 1, i + 1;
        }
      } else {
        len := |s|;
      }
    }

    // The memory management of cfustring_append_n: room for len more characters.
    method Reserve(len: nat)
      requires Valid()
      modifies this
      ensures usedSize == if old(str) == null then 1 else old(usedSize)
      ensures maxSize == Grow(if old(str) == null then len + 1 else old(maxSize), usedSize + len + 1)
      ensures str != null && str.Length == maxSize && usedSize + len < maxSize
      ensures str[..usedSize] == old(buf).Contents() + [NUL]
      ensures str == old(str) || fresh(str)
      ensures buf == old(buf)
      ensures var size := if old(str) == null then len + 1 else old(maxSize);
              copied == old(copied) + if maxSize == size then 0 else usedSize
    {
      if str == null {
        str := new char[len + 1](_ => NUL);
        maxSize, usedSize := len + 1, 1;
      }
      var need := usedSize + len + 1;
      if need > maxSize {
        maxSize := Grow(maxSize, need);
        var tmp := new char[maxSize](_ => NUL);
        ghost var n := CopyTo(tmp, str, usedSize);
        copied := copied + n;
        str := tmp;
      }
    }

    // Append a whole string after making room for it.
    method AppendPart(s: CString)
      requires Valid()
      modifies this, str
      ensures Valid() && fresh(Repr() - old(Repr()))
      ensures buf == Appended(old(buf), s) && usedSize < maxSize
      ensures old(str) != null ==> maxSize == old(maxSize) || maxSize >= 2 * old(maxSize)
    {
      Reserve(|s|);
      assert str[..usedSize - 1] == buf.Contents();
      Paste(str, usedSize - 1, s);
      usedSize := usedSize + |s|;
      buf := Appended(buf, s);
    }

    // cfustring_append_n; a NULL string is None.
    method AppendN(s: Option<CString>, n: nat)
      requires Valid()
      requires s.Some? ==> n <= |s.value| || s.value == ""
      modifies this, str
      ensures Valid() && fresh(Repr() - old(Repr()))
      ensures buf == if s.None? then old(buf) else Appended(old(buf), Part(s.value, n))
      ensures s.Some? ==>
                buf.text == Some(old(buf).Contents() + if n == 0 || s.value == "" then s.value else s.value[..n])
      ensures s.Some? ==> usedSize < maxSize
      ensures s.Some? && old(str) != null && usedSize < old(maxSize) ==>
                maxSize == old(maxSize) && copied == old(copied)
      ensures s.Some? && old(str) != null && usedSize >= old(maxSize) ==>
                maxSize == Max(2 * old(maxSize), usedSize + 1) && copied == old(copied) + old(usedSize)
      ensures s.Some? && old(str) == null ==> maxSize == 2 * usedSize && copied == old(copied) + 1
      ensures old(str) != null ==> maxSize == old(maxSize) || maxSize >= 2 * old(maxSize)
    {
      if s.None? {
        return;
      }
      var len := PartLength(s.value, n);
      AppendPart(s.value[..len]);
    }

    // cfustring_append
    method Append(s: Option<CString>)
      requires Valid()
      modifies this, str
      ensures Valid() && fresh(Repr() - old(Repr()))
      ensures buf == if s.None? then old(buf) else Appended(old(buf), s.value)
      ensures s.Some? ==> buf.text == Some(old(buf).Contents() + s.value)
    {
      AppendN(s, 0);
    }

    // cfustring_dup: a NULL string frees the memory.
    method Dup(s: Option<CString>)
      requires Valid()
      modifies this, str
      ensures Valid() && fresh(Repr() - old(Repr()))
      ensures buf == if s.None? then Buffer(None, 0, old(buf).copied) else Appended(Cleared(old(buf)), s.value)
      ensures buf.Contents() == if s.None? then "" else s.value
    {
      if s.None? {
        maxSize, usedSize, str := 0, 0, null;
        buf := Buffer(None, 0, buf.copied);
        return;
      }
      Clear();
      Append(s);
    }

    // cfustring_get_buffer_copy, without the terminator; NULL is None.
    method GetBufferCopy() returns (r: Option<CString>)
      requires Valid()
      ensures r == buf.text
    {
      if str == null {
        return None;
      }
      assert str[..usedSize - 1] == buf.text.value;
      r := Some(str[..usedSize - 1]);
    }
  }

  // ----- Runs of append, append_n and clear on one buffer -----

  datatype BufferOp = Append(s: CString) | AppendN(s: CString, n: nat) | Clear

  // A caller of append_n must not ask for more characters than a non-empty string has.
  type LegalOp = op: BufferOp | op.AppendN? ==> op.n <= |op.s| || op.s == "" witness Clear

  function Apply(b: Buffer, op: LegalOp): Buffer {
    match op
    case Append(s) => Appended(b, s)
    case AppendN(s, n) => Appended(b, Part(s, n))
    case Clear => Cleared(b)
  }

  function Run(b: Buffer, ops: seq<LegalOp>): Buffer {
    if ops == [] then b else Apply(Run(b, ops[..|ops| - 1]), ops[|ops| - 1])
  }

  // What one call appends.
  function Adds(op: LegalOp): CString {
    match op
    case Append(s) => s
    case AppendN(s, n) => if n == 0 || s == "" then s else s[..n]
    case Clear => ""
  }

  // Everything appended since the last clear.
  function SinceClear(ops: seq<LegalOp>): CString {
    if ops == [] || ops[|ops| - 1].Clear? then "" else SinceClear(ops[..|ops| - 1]) + Adds(ops[|ops| - 1])
  }

  function TotalAppended(ops: seq<LegalOp>): nat {
    if ops == [] then 0 else TotalAppended(ops[..|ops| - 1]) + |Adds(ops[|ops| - 1])|
  }

  // The numbers that the bound on copying keeps; total is what was appended.
  ghost predicate Bounded(b: Buffer, total: nat) {
    && b.UsedSize() <= b.maxSize && (b.text.None? ==> b.maxSize == 0)
    && |b.Contents()| <= total && b.copied <= b.maxSize
    && (b.copied == 0 || b.maxSize <= 2 * total + 2)
  }

  lemma AppendBounded(b: Buffer, s: CString, total: nat)
    requires Bounded(b, total)
    ensures var r := Appended(b, s);
            Bounded(r, total + |s|) && r.Contents() == b.Contents() + s && r.UsedSize() < r.maxSize
  {
  }

  lemma ApplyBounded(b: Buffer, op: LegalOp, total: nat)
    requires Bounded(b, total)
    ensures var r := Apply(b, op);
            && Bounded(r, total + |Adds(op)|)
            && r.Contents() == (if op.Clear? then "" else b.Contents() + Adds(op))
            && (!op.Clear? ==> r.UsedSize() < r.maxSize)
  {
    hide Appended;
    match op {
      case Append(s) => AppendBounded(b, s, total);
      case AppendN(s, n) => AppendBounded(b, Part(s, n), total);
      case Clear =>
    }
  }

  // The bytes copied by all reallocations never exceed the memory held now, nor twice the bytes appended plus 2.
  lemma {:induction false} BufferRun(initialSize: nat, ops: seq<LegalOp>)
    ensures var b := Run(Fresh(initialSize), ops);
            && b.Contents() == SinceClear(ops)
            && b.UsedSize() <= b.maxSize && (b.text.None? ==> b.maxSize == 0)
            && |b.Contents()| <= TotalAppended(ops)
            && b.copied <= b.maxSize
            && (b.copied == 0 || b.maxSize <= 2 * TotalAppended(ops) + 2)
            && (ops != [] && !ops[|ops| - 1].Clear? ==> b.UsedSize() < b.maxSize)
  {
    hide Apply, Adds;
    if ops == [] {
    } else {
      BufferRun(initialSize, ops[..|ops| - 1]);
      ApplyBounded(Run(Fresh(initialSize), ops[..|ops| - 1]), ops[|ops| - 1], TotalAppended(ops[..|ops| - 1]));
    }
  }
}
