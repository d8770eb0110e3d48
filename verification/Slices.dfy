/** Go slices: a length and a backing array, which other slices may share. */
module Slices {

  /** The capacity is the length of the backing array. */
  datatype Slice<T> = Slice(mem: array<T>, len: nat)

  ghost predicate Fits<T>(s: Slice<T>) {
    s.len <= s.mem.Length
  }

  ghost function Elements<T>(s: Slice<T>): seq<T>
    requires Fits(s)
    reads s.mem
  {
    s.mem[..s.len]
  }

  /** The elements of s at the front of a new array. */
  method Move<T(0)>(s: Slice<T>, capacity: nat) returns (mem: array<T>)
    requires Fits(s) && s.len <= capacity
    ensures fresh(mem) && mem.Length == capacity && mem[..s.len] == Elements(s)
  {
    mem := new T[capacity];
    for i := 0 to s.len
      invariant mem[..i] == s.mem[..i]
    {
      mem[i] := s.mem[i];
    }
  }

  method WriteAt<T>(mem: array<T>, at: nat, more: seq<T>)
    requires at + |more| <= mem.Length
    modifies mem
    ensures mem[..] == old(mem[..at]) + more + old(mem[at + |more|..])
  {
    for i := 0 to |more|
      invariant mem[..at + i] == old(mem[..at]) + more[..i]
      invariant mem[at + |more|..] == old(mem[at + |more|..])
    {
      mem[at + i] := more[i];
      assert mem[..at + i + 1] == mem[..at + i] + [more[i]];
      assert more[..i + 1] == more[..i] + [more[i]];
    }
    assert more[..|more|] == more;
    assert mem[..] == mem[..at + |more|] + mem[at + |more|..];
  }

  /** `append(s, more...)`: writes behind s in the shared array when there is room, and otherwise
      moves to a new array with some spare capacity. */
  method Append<T(0)>(s: Slice<T>, more: seq<T>) returns (r: Slice<T>)
    requires Fits(s)
    modifies s.mem
    ensures Fits(r) && r.len == s.len + |more|
    ensures Elements(r) == old(Elements(s)) + more
    ensures Elements(s) == old(Elements(s))
    ensures if r.len <= s.mem.Length then r.mem == s.mem else fresh(r.mem) && s.mem[..] == old(s.mem[..])
    ensures r.len <= s.mem.Length ==> s.mem[r.len..] == old(s.mem[r.len..])
  {
    var n := s.len + |more|;
    var mem := s.mem;
    if n > s.mem.Length {
      var spare :| spare >= 0;
      mem := Move(s, n + spare);
    }
    WriteAt(mem, s.len, more);
    assert mem[..s.len] == mem[..n][..s.len];
    r := Slice(mem, n);
  }

  /** A copy whose capacity is its length. */
  method Copy<T(0)>(s: Slice<T>) returns (r: Slice<T>)
    requires Fits(s)
    ensures fresh(r.mem) && Fits(r) && r.mem.Length == r.len == s.len
    ensures Elements(r) == Elements(s)
  {
    var mem := Move(s, s.len);
    r := Slice(mem, s.len);
  }

  method Empty<T(0)>() returns (r: Slice<T>)
    ensures fresh(r.mem) && Fits(r) && r.mem.Length == r.len == 0
  {
    var mem := new T[0];
    r := Slice(mem, 0);
  }

  /** Why one copies before appending: when two appends to the same slice both find room, the second
      overwrites what the first one added. */
  method TwoAppendsToOneSlice<T(0)>(s: Slice<T>, a: T, b: T) returns (first: Slice<T>, second: Slice<T>)
    requires s.len < s.mem.Length
    modifies s.mem
    ensures Fits(first) && Fits(second) && Elements(first) == Elements(second) == old(Elements(s)) + [b]
  {
    first := Append(s, [a]);
    second := Append(s, [b]);
  }
}
