/** The io.Writer and io.Reader the marshalling methods work on. */
module Streams {
  import opened Bytes

  class Writer {
    var out: seq<byte>

    constructor ()
      ensures out == []
    {
      out := [];
    }

    method Write(bs: seq<byte>)
      modifies this
      ensures out == old(out) + bs
    {
      out := out + bs;
    }
  }

  class Reader {
    /** What is still unread. */
    var data: seq<byte>

    constructor (data: seq<byte>)
      ensures this.data == data
    {
      this.data := data;
    }

    /** Reads one item: a successful read and the break code move the reader, after any other
        error its position is unspecified. */
    method Pull<T>(parse: seq<byte> -> Parse<T>) returns (p: Parse<T>)
      modifies this
      ensures p == parse(old(data))
      ensures p.Done? ==> data == p.rest
      ensures p.Broke? ==> data == p.after
    {
      p := parse(data);
      if p.Done? {
        data := p.rest;
      } else if p.Broke? {
        data := p.after;
      }
    }
  }

  /** io.MultiWriter over a writer and a checksum buffer that starts empty: what has been written
      since, behind what the writer held before. */
  class MultiWriter {
    const w: Writer
    const buffer: Writer
    ghost const base: seq<byte>

    ghost predicate Valid()
      reads this, w, buffer
    {
      w != buffer && w.out == base + buffer.out
    }

    constructor (w: Writer)
      ensures Valid() && fresh(buffer) && this.w == w
      ensures base == w.out && buffer.out == []
    {
      var b := new Writer();
      this.w, this.buffer, base := w, b, w.out;
      new;
      assert w.out == base + [];
    }

    method Write(bs: seq<byte>)
      requires Valid()
      modifies w, buffer
      ensures Valid() && buffer.out == old(buffer.out) + bs
    {
      w.Write(bs);
      buffer.Write(bs);
      Assoc(base, old(buffer.out), bs);
    }
  }
}
