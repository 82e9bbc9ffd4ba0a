/** The two pinned buffers of the CPU Adam optimizer and the copies from them to the device:
    csrc/adam/cpu_adam.cpp and csrc/includes/cpu_adam.h.

    A launched copy converts and copies the elements of a buffer one by one, in any order and at any time until
    its stream is synchronised; it reads an element of the buffer when it copies it. */
module DoubleBuffer {
  import opened Wrappers

  const TILE: nat := 128 * 1024 * 1024

  /** A launched copy: where it goes in the device array, how long it is, and what is not yet copied. */
  datatype Copy = Copy(start: nat, size: nat, todo: set<nat>)

  /** Position j of the device array is a target of the copy. */
  ghost predicate Covers(c: Option<Copy>, j: int) {
    c.Some? && c.value.start <= j < c.value.start + c.value.size
  }

  /** The copy writes below a position. */
  ghost predicate Behind(c: Option<Copy>, position: int) {
    c.Some? ==> c.value.start + c.value.size <= position
  }

  ghost predicate Fits(c: Option<Copy>, devLength: nat) {
    c.Some? ==> c.value.size <= TILE && c.value.start + c.value.size <= devLength &&
                forall i :: i in c.value.todo ==> i < c.value.size
  }

  ghost predicate Apart(a: Option<Copy>, b: Option<Copy>) {
    a.Some? && b.Some? ==>
      a.value.start + a.value.size <= b.value.start || b.value.start + b.value.size <= a.value.start
  }

  /** The device array after a pending copy has done the rest of its work on the buffer as it is. */
  ghost function Finished(dev: seq<real>, buffer: seq<real>, c: Option<Copy>, convert: real -> real): (r: seq<real>)
    requires |buffer| == TILE && Fits(c, |dev|)
    ensures |r| == |dev|
    ensures forall j :: 0 <= j < |dev| ==>
      r[j] == if Covers(c, j) && j - c.value.start in c.value.todo then convert(buffer[j - c.value.start]) else dev[j]
  {
    seq(|dev|, j requires 0 <= j < |dev| =>
      if Covers(c, j) && j - c.value.start in c.value.todo then convert(buffer[j - c.value.start]) else dev[j])
  }

  /** The device array once all pending copies are done. */
  ghost function Future(dev: seq<real>, first: seq<real>, second: seq<real>, a: Option<Copy>, b: Option<Copy>,
                        convert: real -> real): (r: seq<real>)
    requires |first| == |second| == TILE && Fits(a, |dev|) && Fits(b, |dev|)
    ensures |r| == |dev|
  {
    Finished(Finished(dev, first, a, convert), second, b, convert)
  }

  ghost predicate SameTarget(before: Option<Copy>, after: Option<Copy>) {
    (before.None? && after.None?) ||
    (before.Some? && after.Some? && before.value.start == after.value.start && before.value.size == after.value.size)
  }

  /** The device array and a copy after element i has been copied. */
  ghost function Copied(dev: seq<real>, buffer: seq<real>, c: Copy, i: nat, convert: real -> real): seq<real>
    requires |buffer| == TILE && Fits(Some(c), |dev|) && i in c.todo
  {
    dev[c.start + i := convert(buffer[i])]
  }

  lemma CopiedFinishesAlike(dev: seq<real>, buffer: seq<real>, c: Copy, i: nat, convert: real -> real)
    requires |buffer| == TILE && Fits(Some(c), |dev|) && i in c.todo
    ensures Finished(Copied(dev, buffer, c, i, convert), buffer, Some(c.(todo := c.todo - {i})), convert) ==
            Finished(dev, buffer, Some(c), convert)
  {
  }

  lemma FirstCopies(dev: seq<real>, first: seq<real>, second: seq<real>, c: Copy, b: Option<Copy>, i: nat,
                    convert: real -> real)
    requires |first| == |second| == TILE && Fits(Some(c), |dev|) && Fits(b, |dev|) && i in c.todo
    ensures Future(Copied(dev, first, c, i, convert), first, second, Some(c.(todo := c.todo - {i})), b, convert) ==
            Future(dev, first, second, Some(c), b, convert)
  {
    CopiedFinishesAlike(dev, first, c, i, convert);
  }

  lemma SecondCopies(dev: seq<real>, first: seq<real>, second: seq<real>, a: Option<Copy>, c: Copy, i: nat,
                     convert: real -> real)
    requires |first| == |second| == TILE && Fits(a, |dev|) && Fits(Some(c), |dev|) && Apart(a, Some(c)) && i in c.todo
    ensures Future(Copied(dev, second, c, i, convert), first, second, a, Some(c.(todo := c.todo - {i})), convert) ==
            Future(dev, first, second, a, Some(c), convert)
  {
    var base := Finished(dev, first, a, convert);
    assert Finished(Copied(dev, second, c, i, convert), first, a, convert) == Copied(base, second, c, i, convert);
    CopiedFinishesAlike(base, second, c, i, convert);
  }

  /** The device array with a range taken, converted, from a list of values. */
  ghost function Overlay(dev: seq<real>, values: seq<real>, lo: int, hi: int, shift: int,
                         convert: real -> real): (r: seq<real>)
    requires 0 <= lo - shift && hi - shift <= |values|
    ensures |r| == |dev|
    ensures forall j :: 0 <= j < |dev| ==> r[j] == if lo <= j < hi then convert(values[j - shift]) else dev[j]
  {
    seq(|dev|, j requires 0 <= j < |dev| => if lo <= j < hi then convert(values[j - shift]) else dev[j])
  }

  function Below(n: nat): (r: set<nat>)
    ensures forall i: nat :: i in r <==> i < n
  {
    if n == 0 then {} else Below(n - 1) + {n - 1}
  }

  /** A copy that has not copied anything yet. */
  function Whole(start: nat, size: nat): Copy {
    Copy(start, size, Below(size))
  }

  lemma NewCopyFinishes(dev: seq<real>, buffer: seq<real>, start: nat, size: nat, convert: real -> real)
    requires |buffer| == TILE && size <= TILE && start + size <= |dev|
    ensures Finished(dev, buffer, Some(Whole(start, size)), convert) ==
      Overlay(dev, buffer, start, start + size, start, convert)
  {
    forall j | 0 <= j < |dev|
      ensures Finished(dev, buffer, Some(Whole(start, size)), convert)[j] ==
              Overlay(dev, buffer, start, start + size, start, convert)[j]
    {
      if start <= j < start + size { assert j - start in Whole(start, size).todo; }
    }
  }

  /** Launching a copy on an idle stream adds its range to what will be delivered. */
  lemma FirstLaunches(dev: seq<real>, first: seq<real>, second: seq<real>, start: nat, size: nat, b: Option<Copy>,
                      convert: real -> real)
    requires |first| == |second| == TILE && size <= TILE && start + size <= |dev| && Fits(b, |dev|)
    requires Apart(Some(Whole(start, size)), b)
    ensures Future(dev, first, second, Some(Whole(start, size)), b, convert) ==
            Overlay(Future(dev, first, second, None, b, convert), first, start, start + size, start, convert)
  {
    NewCopyFinishes(dev, first, start, size, convert);
    assert Finished(dev, first, None, convert) == dev;
  }

  lemma SecondLaunches(dev: seq<real>, first: seq<real>, second: seq<real>, a: Option<Copy>, start: nat, size: nat,
                       convert: real -> real)
    requires |first| == |second| == TILE && size <= TILE && start + size <= |dev| && Fits(a, |dev|)
    ensures Future(dev, first, second, a, Some(Whole(start, size)), convert) ==
            Overlay(Future(dev, first, second, a, None, convert), second, start, start + size, start, convert)
  {
    var base := Finished(dev, first, a, convert);
    NewCopyFinishes(base, second, start, size, convert);
    assert Finished(base, second, None, convert) == base;
  }

  /** A copy that has nothing left to do may be forgotten. */
  lemma DoneIsNone(dev: seq<real>, buffer: seq<real>, c: Copy, convert: real -> real)
    requires |buffer| == TILE && Fits(Some(c), |dev|) && c.todo == {}
    ensures Finished(dev, buffer, Some(c), convert) == Finished(dev, buffer, None, convert) == dev
  {
  }

  lemma ForgetFirst(dev: seq<real>, first: seq<real>, second: seq<real>, c: Copy, b: Option<Copy>,
                    convert: real -> real)
    requires |first| == |second| == TILE && Fits(Some(c), |dev|) && Fits(b, |dev|) && c.todo == {}
    ensures Future(dev, first, second, None, b, convert) == Future(dev, first, second, Some(c), b, convert)
  {
    DoneIsNone(dev, first, c, convert);
  }

  lemma ForgetSecond(dev: seq<real>, first: seq<real>, second: seq<real>, a: Option<Copy>, c: Copy,
                     convert: real -> real)
    requires |first| == |second| == TILE && Fits(a, |dev|) && Fits(Some(c), |dev|) && c.todo == {}
    ensures Future(dev, first, second, a, None, convert) == Future(dev, first, second, a, Some(c), convert)
  {
    DoneIsNone(Finished(dev, first, a, convert), second, c, convert);
  }

  lemma NothingPending(dev: seq<real>, first: seq<real>, second: seq<real>, convert: real -> real)
    requires |first| == |second| == TILE
    ensures Future(dev, first, second, None, None, convert) == dev
  {
    assert Finished(dev, first, None, convert) == dev;
  }

  /** What is stored in a buffer without a pending copy does not matter to the device array. */
  lemma IdleBuffer(dev: seq<real>, x: seq<real>, y: seq<real>, convert: real -> real)
    requires |x| == |y| == TILE
    ensures Finished(dev, x, None, convert) == Finished(dev, y, None, convert)
  {
  }

  class Streams {
    const convert: real -> real
    const first: array<real>
    const second: array<real>
    var index: nat
    var a: Option<Copy>
    var b: Option<Copy>

    constructor (convert: real -> real)
      ensures this.convert == convert && fresh(first) && fresh(second) && index == 0 && a == None && b == None
      ensures Pinned()
    {
      this.convert := convert;
      first, second := new real[TILE], new real[TILE];
      index, a, b := 0, None, None;
    }

    ghost predicate Valid(dev: array<real>)
      reads this
    {
      Pinned() && dev != first && dev != second && index < 2 &&
      Fits(a, dev.Length) && Fits(b, dev.Length) && Apart(a, b)
    }

    ghost predicate Pinned() {
      first.Length == second.Length == TILE && first != second
    }

    /** No copy is pending. */
    ghost predicate Idle()
      reads this
    {
      a == None && b == None
    }

    ghost function Delivered(dev: array<real>): (r: seq<real>)
      requires Valid(dev)
      reads this, first, second, dev
      ensures |r| == dev.Length
    {
      Future(dev[..], first[..], second[..], a, b, convert)
    }

    /** The copy pending on the buffer to be written next. */
    function Current(): Option<Copy>
      reads this
    {
      if index == 0 then a else b
    }

    function Buffer(): array<real>
      reads this
    {
      if index == 0 then first else second
    }

    /** One element is converted and copied. */
    method CopyOne(dev: array<real>, buffer: array<real>, c: Copy, i: nat) returns (rest: Option<Copy>)
      requires buffer.Length == TILE && dev != buffer && Fits(Some(c), dev.Length) && i in c.todo
      modifies dev
      ensures dev[..] == Copied(old(dev[..]), buffer[..], c, i, convert) && rest == Some(c.(todo := c.todo - {i}))
    {
      dev[c.start + i] := convert(buffer[i]);
      rest := Some(c.(todo := c.todo - {i}));
    }

    /** Any pending copies make any progress. */
    method Background(dev: array<real>)
      requires Valid(dev)
      modifies `a, `b, dev
      ensures Valid(dev) && Delivered(dev) == old(Delivered(dev))
      ensures SameTarget(old(a), a) && SameTarget(old(b), b)
    {
      hide Future, Copied;
      while *
        invariant Valid(dev) && Delivered(dev) == old(Delivered(dev))
        invariant SameTarget(old(a), a) && SameTarget(old(b), b)
        decreases (if a.Some? then |a.value.todo| else 0) + (if b.Some? then |b.value.todo| else 0)
      {
        ghost var d := dev[..];
        if
        case a.Some? && a.value.todo != {} =>
          var c, i :| c == a.value && i in c.todo;
          FirstCopies(d, first[..], second[..], c, b, i, convert);
          a := CopyOne(dev, first, c, i);
        case b.Some? && b.value.todo != {} =>
          var c, i :| c == b.value && i in c.todo;
          SecondCopies(d, first[..], second[..], a, c, i, convert);
          b := CopyOne(dev, second, c, i);
        case (a.Some? ==> a.value.todo == {}) && (b.Some? ==> b.value.todo == {}) =>
          break;
      }
    }

    /** Stores values in the current buffer, which no copy may be reading. */
    method Store(dev: array<real>, at: nat, values: seq<real>)
      requires Valid(dev) && Current() == None && at + |values| <= TILE
      modifies Buffer()
      ensures Valid(dev) && Delivered(dev) == old(Delivered(dev))
      ensures Buffer()[..] == old(Buffer()[..])[..at] + values + old(Buffer()[..])[at + |values|..]
    {
      var buffer := Buffer();
      ghost var was := buffer[..];
      for l := 0 to |values|
        invariant buffer[..] == was[..at] + values[..l] + was[at + l..]
      {
        buffer[at + l] := values[l];
      }
      assert values[..|values|] == values;
      IdleBuffer(dev[..], was, buffer[..], convert);
    }

    /** Stores values behind those the current buffer already holds, while other copies go on. */
    method Put(dev: array<real>, at: nat, values: seq<real>)
      requires Valid(dev) && Current() == None && at + |values| <= TILE
      modifies `a, `b, dev, first, second
      ensures Valid(dev) && Current() == None && Delivered(dev) == old(Delivered(dev))
      ensures SameTarget(old(a), a) && SameTarget(old(b), b)
      ensures Buffer()[..at + |values|] == old(Buffer()[..at]) + values
    {
      hide Future;
      Background(dev);
      Store(dev, at, values);
    }

    /** `launch_param_update`: a copy of the current buffer starts on the current stream. */
    method Launch(dev: array<real>, start: nat, size: nat)
      requires Valid(dev) && Current() == None && size <= TILE && start + size <= dev.Length
      requires Apart(Some(Whole(start, size)), a) && Apart(Some(Whole(start, size)), b)
      modifies `a, `b
      ensures Valid(dev) && Current() == Some(Whole(start, size))
      ensures if index == 0 then b == old(b) else a == old(a)
      ensures Delivered(dev) == Overlay(old(Delivered(dev)), Buffer()[..], start, start + size, start, convert)
    {
      hide Future;
      if index == 0 {
        FirstLaunches(dev[..], first[..], second[..], start, size, b, convert);
        a := Some(Whole(start, size));
      } else {
        SecondLaunches(dev[..], first[..], second[..], a, start, size, convert);
        b := Some(Whole(start, size));
      }
    }

    method Toggle()
      requires index < 2
      modifies `index
      ensures index == 1 - old(index)
    {
      index := 1 - index;
    }

    /** `cudaStreamSynchronize`: waits until the copy on a stream is done. */
    method Synchronize(dev: array<real>, stream: nat)
      requires Valid(dev) && stream < 2
      modifies `a, `b, dev
      ensures Valid(dev) && Delivered(dev) == old(Delivered(dev))
      ensures if stream == 0 then a == None && b == old(b) else b == None && a == old(a)
    {
      hide Future, Copied;
      if stream == 0 {
        while a.Some? && a.value.todo != {}
          invariant Valid(dev) && Delivered(dev) == old(Delivered(dev)) && b == old(b)
          decreases if a.Some? then a.value.todo else {}
        {
          var c, i :| c == a.value && i in c.todo;
          FirstCopies(dev[..], first[..], second[..], c, b, i, convert);
          a := CopyOne(dev, first, c, i);
        }
        if a.Some? { ForgetFirst(dev[..], first[..], second[..], a.value, b, convert); }
        a := None;
      } else {
        while b.Some? && b.value.todo != {}
          invariant Valid(dev) && Delivered(dev) == old(Delivered(dev)) && a == old(a)
          decreases if b.Some? then b.value.todo else {}
        {
          var c, i :| c == b.value && i in c.todo;
          SecondCopies(dev[..], first[..], second[..], a, c, i, convert);
          b := CopyOne(dev, second, c, i);
        }
        if b.Some? { ForgetSecond(dev[..], first[..], second[..], a, b.value, convert); }
        b := None;
      }
    }

    /** `SynchronizeStreams`: afterwards everything has been delivered. */
    method SynchronizeStreams(dev: array<real>)
      requires Valid(dev)
      modifies `a, `b, dev
      ensures Valid(dev) && Idle() && dev[..] == old(Delivered(dev))
    {
      hide Future;
      for stream := 0 to 2
        invariant Valid(dev) && Delivered(dev) == old(Delivered(dev))
        invariant (stream >= 1 ==> a == None) && (stream >= 2 ==> b == None)
      {
        Synchronize(dev, stream);
      }
      NothingPending(dev[..], first[..], second[..], convert);
    }
  }
}
