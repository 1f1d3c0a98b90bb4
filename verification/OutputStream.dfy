/** pb_ostream_t: a cursor that writes into a buffer, or only counts. */
module OutputStream {
  import opened Words
  import opened Encoding

  /** A stream's fields and the buffer behind it; `sizing` is a NULL callback. */
  datatype Output = Output(sizing: bool, mem: seq<Byte>, state: nat, maxSize: nat, written: nat)

  /** The space the stream may still fill lies inside the buffer. */
  predicate Sound(v: Output) {
    v.sizing || (v.written <= v.maxSize && v.state + (v.maxSize - v.written) <= |v.mem|)
  }

  predicate Admits(v: Output, n: nat) {
    v.sizing || v.written + n <= v.maxSize
  }

  /** The stream after writing `out`: no other byte of the buffer has changed. */
  function After(v: Output, out: seq<Byte>): (w: Output)
    requires Sound(v) && Admits(v, |out|)
    ensures Sound(w)
  {
    if v.sizing then v.(written := v.written + |out|)
    else v.(mem := v.mem[..v.state] + out + v.mem[v.state + |out|..],
            state := v.state + |out|, written := v.written + |out|)
  }

  /** Nothing but whole bytes in the stream's own space was written. */
  ghost predicate Grew(v: Output, w: Output) {
    Sound(v) && exists out: seq<Byte> :: Admits(v, |out|) && w == After(v, out)
  }

  /** The contract of every writer: it succeeds exactly when its output is defined and fits, and
      then the stream has taken that output; a failure may leave part of one behind. */
  ghost predicate Emitted(v: Output, w: Output, ok: bool, out: Option<seq<Byte>>) {
    && Grew(v, w) && Sound(w)
    && (ok <==> out.Some? && Admits(v, |out.value|))
    && (ok ==> w == After(v, out.value))
  }

  lemma AfterAfter(v: Output, a: seq<Byte>, b: seq<Byte>)
    requires Sound(v) && Admits(v, |a|) && Admits(After(v, a), |b|)
    ensures Admits(v, |a + b|) && After(After(v, a), b) == After(v, a + b)
  {
    if !v.sizing {
      var m := After(v, a).mem;
      assert m[..v.state + |a|] == v.mem[..v.state] + a;
      assert m[v.state + |a| + |b|..] == v.mem[v.state + |a + b|..];
      assert v.mem[..v.state] + a + b == v.mem[..v.state] + (a + b);
    }
  }

  lemma GrewTwice(u: Output, v: Output, w: Output)
    requires Grew(u, v) && Grew(v, w)
    ensures Grew(u, w)
  {
    var a: seq<Byte> :| Admits(u, |a|) && v == After(u, a);
    var b: seq<Byte> :| Admits(v, |b|) && w == After(v, b);
    AfterAfter(u, a, b);
  }

  lemma EmittedNothing(v: Output)
    requires Sound(v)
    ensures Emitted(v, v, true, Some([])) && Emitted(v, v, false, None)
  {
    if !v.sizing {
      assert v.mem[..v.state] + [] + v.mem[v.state..] == v.mem;
    }
    assert After(v, []) == v;
  }

  /** Writing one thing and then another is writing both. */
  lemma EmittedJoin(u: Output, v: Output, w: Output, ok: bool, a: Option<seq<Byte>>, b: Option<seq<Byte>>)
    requires Emitted(u, v, true, a) && Emitted(v, w, ok, b)
    ensures Emitted(u, w, ok, Join(a, b))
  {
    GrewTwice(u, v, w);
    if ok {
      AfterAfter(u, a.value, b.value);
    }
  }

  /** Failing at the first of two is failing at both. */
  lemma EmittedFail(u: Output, v: Output, a: Option<seq<Byte>>, b: Option<seq<Byte>>)
    requires Emitted(u, v, false, a)
    ensures Emitted(u, v, false, Join(a, b))
  {
  }

  lemma EmittedTooLong(v: Output, out: seq<Byte>)
    requires Sound(v) && !Admits(v, |out|)
    ensures Emitted(v, v, false, Some(out))
  {
    EmittedNothing(v);
  }

  class OStream {
    const buf: array<Byte>
    const sizing: bool
    const maxSize: nat
    var state: nat
    var bytesWritten: nat

    ghost function View(): Output
      reads this, buf
    {
      Output(sizing, buf[..], state, maxSize, bytesWritten)
    }

    ghost predicate Valid()
      reads this, buf
    {
      Sound(View())
    }

    /** pb_ostream_from_buffer, and the writing substream of pb_encode_submessage. */
    constructor Over(buf: array<Byte>, state: nat, maxSize: nat)
      requires state + maxSize <= buf.Length
      ensures this.buf == buf && View() == Output(false, buf[..], state, maxSize, 0) && Valid()
    {
      this.buf := buf;
      this.sizing := false;
      this.state := state;
      this.maxSize := maxSize;
      this.bytesWritten := 0;
    }

    /** PB_OSTREAM_SIZING. */
    constructor Sizing()
      ensures fresh(buf) && View() == Output(true, [], 0, 0, 0) && Valid()
    {
      this.buf := new Byte[0];
      this.sizing := true;
      this.state := 0;
      this.maxSize := 0;
      this.bytesWritten := 0;
    }

    method BufWrite(data: seq<Byte>)
      requires state + |data| <= buf.Length
      modifies this`state, buf
      ensures state == old(state) + |data|
      ensures buf[..] == old(buf[..])[..old(state)] + data + old(buf[..])[old(state) + |data|..]
    {
      var dest := state;
      state := dest + |data|;
      for i := 0 to |data|
        invariant state == dest + |data|
        invariant forall k :: 0 <= k < buf.Length ==>
                    buf[k] == if dest <= k < dest + i then data[k - dest] else old(buf[k])
      {
        buf[dest + i] := data[i];
      }
    }

    /** pb_write. A sizing stream is given no data; `out` is what would be written. */
    method Write(data: seq<Byte>, count: nat, ghost out: seq<Byte>) returns (ok: bool)
      requires Valid() && |out| == count && (!sizing ==> data == out)
      modifies this, buf
      ensures Emitted(old(View()), View(), ok, Some(out))
    {
      ghost var v := View();
      EmittedNothing(v);
      if count > 0 && !sizing {
        if bytesWritten + count > maxSize {
          return false;
        }
        BufWrite(data);
      }
      bytesWritten := bytesWritten + count;
      assert View() == After(v, out);
      return true;
    }
  }
}
