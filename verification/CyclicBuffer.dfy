/** The cyclic byte buffer of tm_stm32_buffer.c: `In` and `Out` chase each other
    through a fixed array, and one cell always stays unused. */
module CyclicBuffers {
  import opened Bytes

  /** The index `i + k` of a ring of `size` cells, for `i < size` and `k <= size`. */
  function Wrap(i: nat, k: nat, size: nat): (r: nat)
    requires i < size && k <= size
    ensures r < size
  {
    if i + k >= size then i + k - size else i + k
  }

  /** The stored bytes, oldest first, of a ring `mem` with the two pointers. */
  function Window(mem: seq<byte>, input: nat, output: nat): (w: seq<byte>)
    requires input < |mem| && output < |mem|
    ensures |w| < |mem|
    ensures |w| == if output <= input then input - output else |mem| - (output - input)
  {
    if output <= input then mem[output..input] else mem[output..] + mem[..input]
  }

  /** `mem` after `d` has been laid down from cell `at` on, wrapping at the end. */
  function Stored(mem: seq<byte>, at: nat, d: seq<byte>): (m: seq<byte>)
    requires at < |mem| && |d| <= |mem|
    ensures |m| == |mem|
  {
    seq(|mem|, i requires 0 <= i < |mem| =>
      var k := if i >= at then i - at else i + |mem| - at;
      if k < |d| then d[k] else mem[i])
  }

  /** The k-th stored byte sits k cells after the output pointer. */
  lemma WindowAt(mem: seq<byte>, input: nat, output: nat, k: nat)
    requires input < |mem| && output < |mem|
    requires k < |Window(mem, input, output)|
    ensures Window(mem, input, output)[k] == mem[Wrap(output, k, |mem|)]
  {
  }

  /** Laying `d` down at the input pointer appends `d` to the stored bytes. */
  lemma StoredAppends(mem: seq<byte>, input: nat, output: nat, d: seq<byte>)
    requires input < |mem| && output < |mem|
    requires |Window(mem, input, output)| + |d| < |mem|
    ensures Window(Stored(mem, input, d), Wrap(input, |d|, |mem|), output)
         == Window(mem, input, output) + d
  {
    var mem', input' := Stored(mem, input, d), Wrap(input, |d|, |mem|);
    var w, w' := Window(mem, input, output), Window(mem', input', output);
    assert |w'| == |w| + |d|;
    forall k: nat | k < |w'|
      ensures w'[k] == (w + d)[k]
    {
      WindowAt(mem', input', output, k);
      if k < |w| {
        WindowAt(mem, input, output, k);
      }
    }
  }

  /** Moving the output pointer back over `d` puts `d` in front of the stored bytes. */
  lemma StoredPrepends(mem: seq<byte>, input: nat, output: nat, d: seq<byte>)
    requires input < |mem| && output < |mem|
    requires |Window(mem, input, output)| + |d| < |mem|
    ensures var output' := Wrap(output, |mem| - |d|, |mem|);
            Window(Stored(mem, output', d), input, output') == d + Window(mem, input, output)
  {
    var output' := Wrap(output, |mem| - |d|, |mem|);
    var mem' := Stored(mem, output', d);
    var w, w' := Window(mem, input, output), Window(mem', input, output');
    assert |w'| == |d| + |w|;
    forall k: nat | k < |w'|
      ensures w'[k] == (d + w)[k]
    {
      WindowAt(mem', input, output', k);
      if k >= |d| {
        WindowAt(mem, input, output, k - |d|);
      }
    }
  }

  /** Advancing the output pointer by n drops the first n stored bytes. */
  lemma AdvanceDrops(mem: seq<byte>, input: nat, output: nat, n: nat)
    requires input < |mem| && output < |mem|
    requires n <= |Window(mem, input, output)|
    ensures Window(mem, input, Wrap(output, n, |mem|)) == Window(mem, input, output)[n..]
  {
    var w, w' := Window(mem, input, output), Window(mem, input, Wrap(output, n, |mem|));
    assert |w'| == |w| - n;
    forall k: nat | k < |w'|
      ensures w'[k] == w[n..][k]
    {
      WindowAt(mem, input, output, n + k);
      WindowAt(mem, input, Wrap(output, n, |mem|), k);
    }
  }

  /** Laying down `d` and then one more byte is laying down the longer string. */
  lemma StoredOneMore(mem: seq<byte>, at: nat, d: seq<byte>, b: byte)
    requires at < |mem| && |d| < |mem|
    ensures Stored(mem, at, d)[Wrap(at, |d|, |mem|) := b] == Stored(mem, at, d + [b])
  {
  }

  /** The same, growing to the left: first the cell before `at`, then the rest. */
  lemma StoredOneBefore(mem: seq<byte>, at: nat, d: seq<byte>, b: byte)
    requires at < |mem| && |d| < |mem|
    ensures var at' := Wrap(at, |mem| - 1, |mem|);
            Stored(mem, at, d)[at' := b] == Stored(mem, at', [b] + d)
  {
  }

  /** A store that runs off the end is two straight copies. */
  lemma StoredSegments(mem: seq<byte>, at: nat, d: seq<byte>, t: nat)
    requires at < |mem| && |d| < |mem| && t == Min(|mem| - at, |d|)
    ensures var first := mem[..at] + d[..t] + mem[at + t..];
            Stored(mem, at, d) == d[t..] + first[|d| - t..]
  {
  }

  /** A read that runs off the end is two straight copies. */
  lemma WindowSegments(mem: seq<byte>, input: nat, output: nat, n: nat, t: nat)
    requires input < |mem| && output < |mem|
    requires n <= |Window(mem, input, output)| && t == Min(|mem| - output, n)
    ensures Window(mem, input, output)[..n] == mem[output..output + t] + mem[..n - t]
  {
  }

  /** Position of the first `x` in `s`, or -1. */
  function FirstIndex(s: seq<byte>, x: byte): (k: int)
    ensures -1 <= k < |s|
    ensures k >= 0 ==> s[k] == x && x !in s[..k]
    ensures k < 0 ==> x !in s
  {
    if s == [] then -1
    else if s[0] == x then 0
    else
      var k := FirstIndex(s[1..], x);
      if k < 0 then -1
      else
        assert s[..k + 1] == [s[0]] + s[1..][..k];
        k + 1
  }

  lemma FirstIndexIs(s: seq<byte>, x: byte, k: nat)
    requires k < |s| && s[k] == x && x !in s[..k]
    ensures FirstIndex(s, x) == k
  {
    assert forall i :: 0 <= i < k ==> s[i] in s[..k];
  }

  /** ReadString moves bytes only when one of these holds. */
  predicate StringReady(c: seq<byte>, size: nat, delimiter: byte, buffSize: nat)
  {
    c != [] && (delimiter in c || |c| == size - 1 || |c| >= buffSize)
  }

  /** How many bytes ReadString moves when at most `limit` fit: up to and including the
      first delimiter, or as many as there are. */
  function Taken(c: seq<byte>, delimiter: byte, limit: nat): (n: nat)
    ensures n <= |c| && n <= limit
  {
    var k := FirstIndex(c, delimiter);
    if 0 <= k < limit then k + 1 else Min(|c|, limit)
  }

  /** ReadString on its way: i bytes moved, no delimiter among them. */
  ghost predicate Moving(all: seq<byte>, x: byte, before: seq<byte>, i: nat, rest: seq<byte>, cells: seq<byte>)
  {
    && i <= |all| && i <= |before|
    && rest == all[i..]
    && cells == all[..i] + before[i..]
    && x !in all[..i]
  }

  /** n bytes have gone from the ring to the front of the buffer. */
  ghost predicate Moved(all: seq<byte>, before: seq<byte>, n: nat, rest: seq<byte>, cells: seq<byte>)
  {
    && n <= |all| && n <= |before|
    && rest == all[n..]
    && cells == all[..n] + before[n..]
  }

  lemma NextByte(all: seq<byte>, x: byte, before: seq<byte>, i: nat, rest: seq<byte>, cells: seq<byte>,
                 ch: seq<byte>, rest': seq<byte>)
    requires Moving(all, x, before, i, rest, cells) && |ch| == 1 && rest == ch + rest' && i < |before|
    ensures i < |all| && ch[0] == all[i]
    ensures i < |cells| && Moved(all, before, i + 1, rest', cells[i := ch[0]])
    ensures ch[0] != x ==> Moving(all, x, before, i + 1, rest', cells[i := ch[0]])
  {
    var b := ch[0];
    assert rest[0] == b == all[i] && rest' == rest[1..] == all[i + 1..];
    assert all[..i + 1] == all[..i] + [b];
    assert cells[i := b] == all[..i + 1] + before[i + 1..];
  }

  lemma TakenSome(c: seq<byte>, x: byte, limit: nat)
    ensures var n := Taken(c, x, limit); (c[n..] != c <==> n > 0) && (n > 0 <==> c != [] && limit > 0)
  {
    var n := Taken(c, x, limit);
    if n > 0 {
      assert |c[n..]| < |c|;
    } else {
      assert c[0..] == c;
    }
  }

  lemma NothingMoved(all: seq<byte>, x: byte, before: seq<byte>)
    ensures Moving(all, x, before, 0, all, before)
  {
  }

  lemma TakenThrough(all: seq<byte>, x: byte, before: seq<byte>, i: nat, rest: seq<byte>, cells: seq<byte>,
                     limit: nat)
    requires Moving(all, x, before, i, rest, cells) && i < limit && i < |all| && all[i] == x
    ensures Taken(all, x, limit) == i + 1 && x in all[..i + 1]
  {
    FirstIndexIs(all, x, i);
    assert all[..i + 1][i] == x;
  }

  lemma RanOut(all: seq<byte>, x: byte, before: seq<byte>, i: nat, rest: seq<byte>, cells: seq<byte>, limit: nat)
    requires Moving(all, x, before, i, rest, cells) && i <= limit && (rest == [] || i == limit)
    ensures Taken(all, x, limit) == i && x !in all[..i] && Moved(all, before, i, rest, cells)
  {
    assert forall k :: 0 <= k < i ==> all[k] in all[..i];
  }

  class CyclicBuffer {
    var size: uint32
    var input: uint32
    var output: uint32
    var data: array<byte>
    var stringDelimiter: byte

    ghost predicate Valid()
      reads this
    {
      && 0 < size == data.Length
      && input < size
      && output < size
    }

    ghost function Contents(): (c: seq<byte>)
      requires Valid()
      reads this, data
      ensures |c| < size
    {
      Window(data[..], input, output)
    }

    constructor (capacity: uint32)
      requires capacity > 0
      ensures Valid() && fresh(data) && size == capacity
      ensures Contents() == [] && stringDelimiter == 10
    {
      size, input, output, stringDelimiter := capacity, 0, 0, 10;
      data := new byte[capacity](_ => 0);
    }

    function GetFree(): (free: uint32)
      requires Valid()
      reads this, data
      ensures free + |Contents()| == size - 1
    {
      var room :=
        if input == output then size
        else if output > input then output - input
        else size - (input - output);
      room - 1
    }

    function GetFull(): (full: uint32)
      requires Valid()
      reads this, data
      ensures full == |Contents()|
      ensures full + GetFree() == size - 1
    {
      if input == output then 0
      else if input > output then input - output
      else size - (output - input)
    }

    method Reset()
      requires Valid()
      modifies this`input, this`output
      ensures Valid() && Contents() == []
    {
      input, output := 0, 0;
    }

    /** memcpy from `d` into the storage array. */
    method CopyIn(at: nat, d: seq<byte>)
      requires at + |d| <= data.Length
      modifies data
      ensures data[..] == old(data[..])[..at] + d + old(data[..])[at + |d|..]
    {
      forall k | 0 <= k < |d| {
        data[at + k] := d[k];
      }
    }

    /** The two-segment copy selected by BUFFER_FAST. */
    method Write(d: seq<byte>) returns (written: uint32)
      requires Valid() && |d| < 0x1_0000_0000
      modifies this`input, data
      ensures Valid()
      ensures written == Min(|d|, old(GetFree()))
      ensures Contents() == old(Contents()) + d[..written]
      ensures data[..] == Stored(old(data[..]), old(input), d[..written])
      ensures input == Wrap(old(input), written, size)
    {
      ghost var mem, start := data[..], input;
      assert Stored(mem, start, []) == mem;
      if |d| == 0 {
        return 0;
      }
      var count: uint32 := |d|;
      var free := GetFree();
      if free < count {
        if free == 0 {
          return 0;
        }
        count := free;
      }
      StoredAppends(mem, start, output, d[..count]);
      WriteSegments(d[..count]);
      return count;
    }

    /** The copies of Write, once the count has been cut to the free space. */
    method WriteSegments(d: seq<byte>)
      requires Valid() && 0 < |d| < size
      modifies this`input, data
      ensures Valid()
      ensures data[..] == Stored(old(data[..]), old(input), d)
      ensures input == Wrap(old(input), |d|, size)
    {
      var count: uint32 := |d|;
      var tocopy := size - input;
      if tocopy > count {
        tocopy := count;
      }
      StoredSegments(data[..], input, d, tocopy);
      CopyIn(input, d[..tocopy]);
      input := input + tocopy;
      count := count - tocopy;
      if count > 0 {
        input := 0;
        CopyIn(input, d[tocopy..]);
        input := count;
      }
      if input >= size {
        input := 0;
      }
    }

    /** The byte-by-byte loop compiled when BUFFER_FAST is off: same contract. */
    method WriteBytewise(d: seq<byte>) returns (written: uint32)
      requires Valid() && |d| < 0x1_0000_0000
      modifies this`input, data
      ensures Valid()
      ensures written == Min(|d|, old(GetFree()))
      ensures Contents() == old(Contents()) + d[..written]
      ensures data[..] == Stored(old(data[..]), old(input), d[..written])
      ensures input == Wrap(old(input), written, size)
    {
      ghost var mem, start := data[..], input;
      assert Stored(mem, start, []) == mem;
      var count: uint32 := Min(|d|, GetFree());
      var i: uint32 := 0;
      while i < count
        invariant i <= count == Min(|d|, old(GetFree()))
        invariant Valid() && input == Wrap(start, i, size)
        invariant data[..] == Stored(mem, start, d[..i])
      {
        StoredOneMore(mem, start, d[..i], d[i]);
        assert d[..i + 1] == d[..i] + [d[i]];
        data[input] := d[i];
        input := input + 1;
        i := i + 1;
        if input >= size {
          input := 0;
        }
      }
      StoredAppends(mem, start, output, d[..count]);
      return i;
    }

    /** Puts bytes in front of everything stored, so that they are read next, in order. */
    method WriteToTop(d: seq<byte>) returns (written: uint32)
      requires Valid() && |d| < 0x1_0000_0000
      modifies this`output, data
      ensures Valid()
      ensures written == Min(|d|, old(GetFree()))
      ensures Contents() == d[..written] + old(Contents())
    {
      if |d| == 0 {
        return 0;
      }
      var count: uint32 := |d|;
      var free := GetFree();
      if free < count {
        if free == 0 {
          return 0;
        }
        count := free;
      }
      StoredPrepends(data[..], input, output, d[..count]);
      WriteBackwards(d[..count]);
      return count;
    }

    /** The loop of WriteToTop, once the count has been cut to the free space. */
    method WriteBackwards(d: seq<byte>)
      requires Valid() && 0 < |d| < size
      modifies this`output, data
      ensures Valid()
      ensures output == Wrap(old(output), size - |d|, size)
      ensures data[..] == Stored(old(data[..]), output, d)
    {
      ghost var mem, start := data[..], output;
      assert Stored(mem, start, []) == mem;
      var left := |d|;
      while left > 0
        invariant 0 <= left <= |d|
        invariant Valid() && output == Wrap(start, size - (|d| - left), size)
        invariant data[..] == Stored(mem, output, d[left..])
      {
        StoredOneBefore(mem, output, d[left..], d[left - 1]);
        assert d[left - 1..] == [d[left - 1]] + d[left..];
        left := left - 1;
        if output == 0 {
          output := size - 1;
        } else {
          output := output - 1;
        }
        ghost var before := data[..];
        data[output] := d[left];
        assert data[..] == before[output := d[left]];
      }
    }

    /** The two-segment copy out of the buffer. */
    method Read(count: uint32) returns (d: seq<byte>)
      requires Valid()
      modifies this`output
      ensures Valid()
      ensures |d| == Min(count, old(GetFull()))
      ensures old(Contents()) == d + Contents()
      ensures output == Wrap(old(output), |d|, size)
    {
      if count == 0 {
        return [];
      }
      var n := count;
      var full := GetFull();
      if full < n {
        if full == 0 {
          return [];
        }
        n := full;
      }
      AdvanceDrops(data[..], input, output, n);
      d := ReadSegments(n);
    }

    /** The copies of Read, once the count has been cut to what is stored. */
    method ReadSegments(n: uint32) returns (d: seq<byte>)
      requires Valid() && 0 < n <= GetFull()
      modifies this`output
      ensures Valid()
      ensures d == old(Contents())[..n]
      ensures output == Wrap(old(output), n, size)
    {
      var count := n;
      var tocopy := size - output;
      if tocopy > count {
        tocopy := count;
      }
      WindowSegments(data[..], input, output, n, tocopy);
      d := data[output..output + tocopy];
      output := output + tocopy;
      count := count - tocopy;
      if count > 0 {
        output := 0;
        d := d + data[output..count];
        output := count;
      }
      if output >= size {
        output := 0;
      }
    }

    /** The byte-by-byte loop compiled when BUFFER_FAST is off: same contract. */
    method ReadBytewise(count: uint32) returns (d: seq<byte>)
      requires Valid()
      modifies this`output
      ensures Valid()
      ensures |d| == Min(count, old(GetFull()))
      ensures old(Contents()) == d + Contents()
      ensures output == Wrap(old(output), |d|, size)
    {
      ghost var start := output;
      var n: uint32 := Min(count, GetFull());
      var i: uint32 := 0;
      d := [];
      while i < n
        invariant i <= n == Min(count, old(GetFull()))
        invariant Valid() && output == Wrap(start, i, size)
        invariant d == old(Contents())[..i]
      {
        WindowAt(data[..], input, start, i);
        d := d + [data[output]];
        output := output + 1;
        i := i + 1;
        if output >= size {
          output := 0;
        }
      }
      AdvanceDrops(data[..], input, start, n);
    }

    /** Position of the first stored byte equal to `element`, or -1. */
    method FindElement(element: byte) returns (pos: int)
      requires Valid()
      ensures pos == FirstIndex(Contents(), element)
    {
      var num := GetFull();
      var out: uint32 := output;
      var retval: uint32 := 0;
      while num > 0
        invariant retval + num == |Contents()|
        invariant out < size ==> out == Wrap(output, retval, size)
        invariant out == size ==> Wrap(output, retval, size) == 0
        invariant out <= size
        invariant element !in Contents()[..retval]
        decreases num
      {
        if out >= size {
          out := 0;
        }
        WindowAt(data[..], input, output, retval);
        if data[out] == element {
          return retval;
        }
        out := out + 1;
        num := num - 1;
        retval := retval + 1;
      }
      assert Contents()[..retval] == Contents();
      return -1;
    }

    /** Reads up to and including the delimiter into `buff` and closes it with a zero byte.
        When the stored bytes run out first, the zero lands one cell further on, and the
        cell in between keeps its old value. */
    method ReadString(buff: array<byte>) returns (length: uint32)
      requires Valid() && 0 < buff.Length < 0x1_0000_0000 && buff != data
      modifies this`output, buff
      ensures Valid()
      ensures !StringReady(old(Contents()), size, stringDelimiter, buff.Length)
              ==> length == 0 && buff[..] == old(buff[..]) && Contents() == old(Contents())
      ensures StringReady(old(Contents()), size, stringDelimiter, buff.Length) ==>
                var all, limit := old(Contents()), buff.Length - 1;
                var n := Taken(all, stringDelimiter, limit);
                && Contents() == all[n..]
                && buff[..n] == all[..n]
                && length == (if n < limit && stringDelimiter !in all[..n] then n + 1 else n)
                && buff[length] == 0
                && (length > n ==> buff[n] == old(buff[n]))
                && buff[length + 1..] == old(buff[..])[length + 1..]
      ensures Contents() != old(Contents()) <==>
                && buff.Length > 1 && old(Contents()) != []
                && (old(stringDelimiter in Contents()) || old(GetFree()) == 0 || old(|Contents()|) >= buff.Length)
    {
      var memFree, memFull := GetFree(), GetFull();
      var found := FindElement(stringDelimiter);
      if memFull == 0 || (found < 0 && memFree != 0 && memFull < buff.Length) {
        return 0;
      }
      TakenSome(Contents(), stringDelimiter, buff.Length - 1);
      hide Window, Taken;
      var i := ReadUntilDelimiter(buff);
      if i == buff.Length - 1 {
        buff[i] := 0;
      } else {
        i := i + 1;
        buff[i] := 0;
      }
      return i;
    }

    /** The loop of ReadString. `i` stays on a delimiter, and passes every other byte. */
    method ReadUntilDelimiter(buff: array<byte>) returns (i: uint32)
      requires Valid() && 0 < buff.Length < 0x1_0000_0000 && buff != data
      modifies this`output, buff
      ensures Valid()
      ensures var all, limit := old(Contents()), buff.Length - 1;
              var n := Taken(all, stringDelimiter, limit);
              && Moved(all, old(buff[..]), n, Contents(), buff[..])
              && i == (if stringDelimiter in all[..n] then n - 1 else n)
    {
      hide Window, Moving, Moved, Taken;
      ghost var all, before, limit := Contents(), buff[..], buff.Length - 1;
      i := 0;
      NothingMoved(all, stringDelimiter, before);
      while i < buff.Length - 1
        invariant i <= limit && Valid()
        invariant Moving(all, stringDelimiter, before, i, Contents(), buff[..])
      {
        ghost var rest, cells := Contents(), buff[..];
        var ch := Read(1);
        if |ch| == 0 {
          RanOut(all, stringDelimiter, before, i, rest, cells, limit);
          return;
        }
        NextByte(all, stringDelimiter, before, i, rest, cells, ch, Contents());
        buff[i] := ch[0];
        assert buff[..] == cells[i := ch[0]];
        if ch[0] == stringDelimiter {
          TakenThrough(all, stringDelimiter, before, i, rest, cells, limit);
          return;
        }
        i := i + 1;
      }
      RanOut(all, stringDelimiter, before, i, Contents(), buff[..], limit);
    }
  }

  // ---- Every interleaving ---------------------------------------------------

  datatype Op = Append(d: seq<byte>) | Push(d: seq<byte>) | Take(n: uint32)

  ghost predicate Small(op: Op)
  {
    op.Take? || |op.d| < 0x1_0000_0000
  }

  /** A bounded sequence under one operation: what is stored, what came in, what went out. */
  datatype Effect = Effect(contents: seq<byte>, accepted: seq<byte>, taken: seq<byte>)

  /** The abstract bounded sequence: at most `capacity` bytes, excess bytes refused. */
  function Apply(op: Op, c: seq<byte>, capacity: nat): (e: Effect)
    requires |c| <= capacity
    ensures |e.contents| <= capacity
  {
    match op
    case Append(d) =>
      var n := Min(|d|, capacity - |c|);
      Effect(c + d[..n], d[..n], [])
    case Push(d) =>
      var n := Min(|d|, capacity - |c|);
      Effect(d[..n] + c, d[..n], [])
    case Take(n) =>
      var k := Min(n, |c|);
      Effect(c[k..], [], c[..k])
  }

  function ApplyAll(ops: seq<Op>, c: seq<byte>, capacity: nat): (e: Effect)
    requires |c| <= capacity
    ensures |e.contents| <= capacity
  {
    if ops == [] then Effect(c, [], [])
    else
      var first := Apply(ops[0], c, capacity);
      var rest := ApplyAll(ops[1..], first.contents, capacity);
      Effect(rest.contents, first.accepted + rest.accepted, first.taken + rest.taken)
  }

  lemma ApplyNone(c: seq<byte>, capacity: nat)
    requires |c| <= capacity
    ensures ApplyAll([], c, capacity) == Effect(c, [], [])
  {
  }

  lemma ApplyAllFrom(ops: seq<Op>, i: nat, c: seq<byte>, capacity: nat, taken: seq<byte>)
    requires i < |ops| && |c| <= capacity
    ensures var first := Apply(ops[i], c, capacity);
            var rest := ApplyAll(ops[i + 1..], first.contents, capacity);
            && ApplyAll(ops[i..], c, capacity).contents == rest.contents
            && taken + ApplyAll(ops[i..], c, capacity).taken == (taken + first.taken) + rest.taken
  {
    assert ops[i..][0] == ops[i] && ops[i..][1..] == ops[i + 1..];
  }

  method RunOp(b: CyclicBuffer, op: Op) returns (taken: seq<byte>)
    requires b.Valid() && Small(op)
    modifies b`input, b`output, b.data
    ensures b.Valid()
    ensures var e := Apply(op, old(b.Contents()), b.size - 1);
            b.Contents() == e.contents && taken == e.taken
  {
    hide Window;
    taken := [];
    match op {
      case Append(d) =>
        var n := b.Write(d);
      case Push(d) =>
        var n := b.WriteToTop(d);
      case Take(n) =>
        taken := b.Read(n);
        assert old(b.Contents())[..|taken|] == taken;
    }
  }

  /** Any sequence of operations on the ring does what the bounded sequence does. */
  method RunOps(b: CyclicBuffer, ops: seq<Op>) returns (taken: seq<byte>)
    requires b.Valid()
    requires forall k :: 0 <= k < |ops| ==> Small(ops[k])
    modifies b`input, b`output, b.data
    ensures b.Valid()
    ensures var e := ApplyAll(ops, old(b.Contents()), b.size - 1);
            b.Contents() == e.contents && taken == e.taken
  {
    hide Window, Apply, ApplyAll;
    taken := [];
    assert ops[0..] == ops && ops[|ops|..] == [];
    ghost var all := ApplyAll(ops, b.Contents(), b.size - 1);
    var i := 0;
    while i < |ops|
      invariant i <= |ops|
      invariant b.Valid()
      invariant all.contents == ApplyAll(ops[i..], b.Contents(), b.size - 1).contents
      invariant all.taken == taken + ApplyAll(ops[i..], b.Contents(), b.size - 1).taken
    {
      ApplyAllFrom(ops, i, b.Contents(), b.size - 1, taken);
      var c := RunOp(b, ops[i]);
      taken := taken + c;
      i := i + 1;
    }
    ApplyNone(b.Contents(), b.size - 1);
  }

  /** First in, first out: with no push-front, what was stored and what was accepted come
      out in that order, and the rest is still stored. */
  lemma {:induction false} FirstInFirstOut(ops: seq<Op>, c: seq<byte>, capacity: nat)
    requires |c| <= capacity
    requires forall k :: 0 <= k < |ops| ==> !ops[k].Push?
    ensures var e := ApplyAll(ops, c, capacity);
            c + e.accepted == e.taken + e.contents
  {
    if ops != [] {
      var first := Apply(ops[0], c, capacity);
      var rest := ApplyAll(ops[1..], first.contents, capacity);
      FirstInFirstOut(ops[1..], first.contents, capacity);
      ApplyInOrder(ops[0], c, capacity);
      SplitChain(c, first.accepted, first.taken, first.contents, rest);
    }
  }

  lemma ApplyInOrder(op: Op, c: seq<byte>, capacity: nat)
    requires |c| <= capacity && !op.Push?
    ensures var e := Apply(op, c, capacity); c + e.accepted == e.taken + e.contents
  {
    if op.Take? {
      assert c == c[..Min(op.n, |c|)] + c[Min(op.n, |c|)..];
    }
  }

  lemma SplitChain(c: seq<byte>, accepted: seq<byte>, taken: seq<byte>, mid: seq<byte>, rest: Effect)
    requires c + accepted == taken + mid
    requires mid + rest.accepted == rest.taken + rest.contents
    ensures c + (accepted + rest.accepted) == (taken + rest.taken) + rest.contents
  {
    calc {
      c + (accepted + rest.accepted);
      (c + accepted) + rest.accepted;
      taken + (mid + rest.accepted);
      (taken + rest.taken) + rest.contents;
    }
  }

  /** No operation loses or duplicates a byte. */
  lemma {:induction false} BytesConserved(ops: seq<Op>, c: seq<byte>, capacity: nat)
    requires |c| <= capacity
    ensures var e := ApplyAll(ops, c, capacity);
            multiset(c) + multiset(e.accepted) == multiset(e.taken) + multiset(e.contents)
  {
    if ops != [] {
      var first := Apply(ops[0], c, capacity);
      var rest := ApplyAll(ops[1..], first.contents, capacity);
      BytesConserved(ops[1..], first.contents, capacity);
      ApplyConserves(ops[0], c, capacity);
      JoinConserves(c, first, rest);
    }
  }

  lemma JoinConserves(c: seq<byte>, first: Effect, rest: Effect)
    requires multiset(c) + multiset(first.accepted) == multiset(first.taken) + multiset(first.contents)
    requires multiset(first.contents) + multiset(rest.accepted)
          == multiset(rest.taken) + multiset(rest.contents)
    ensures multiset(c) + multiset(first.accepted + rest.accepted)
         == multiset(first.taken + rest.taken) + multiset(rest.contents)
  {
    assert multiset(first.accepted + rest.accepted) == multiset(first.accepted) + multiset(rest.accepted);
    assert multiset(first.taken + rest.taken) == multiset(first.taken) + multiset(rest.taken);
    var a, b, d := multiset(c), multiset(first.accepted), multiset(rest.accepted);
    var t, u, m, e := multiset(first.taken), multiset(rest.taken), multiset(first.contents), multiset(rest.contents);
    assert a + (b + d) == (a + b) + d == (t + m) + d == t + (m + d) == t + (u + e) == (t + u) + e;
  }

  lemma ApplyConserves(op: Op, c: seq<byte>, capacity: nat)
    requires |c| <= capacity
    ensures var e := Apply(op, c, capacity);
            multiset(c) + multiset(e.accepted) == multiset(e.taken) + multiset(e.contents)
  {
    if op.Take? {
      var k := Min(op.n, |c|);
      assert c == c[..k] + c[k..];
    }
  }
}
