/** The list of repodata subdirs that the Python bindings hand out pointers into
    (class `SubdirIndex` in `libmambapy/bindings/legacy.cpp`). */
module SubdirIndex {
  import opened Wrappers

  /** What a loader was created for. */
  datatype Loader = Loader(channel: string, platform: string, repodataFn: string)

  /** A pointer into a vector: a cell of one of the buffers the vector has had. */
  datatype Pointer = Null | Cell(buffer: array<Loader>, index: nat)

  datatype Entry = Entry(subdir: Pointer, platform: string, channel: string, url: string)

  /** What Python sees of one entry: the loader its pointer leads to, and its other fields. */
  datatype Row = Row(loader: Loader, platform: string, channel: string, url: string)

  class Index {
    var buffer: array<Loader>
    var size: nat
    var entries: seq<Entry>

    /** Both vectors are equally long, and every entry points to the current cell of its subdir. */
    ghost predicate Valid()
      reads this
    {
      && size <= buffer.Length
      && |entries| == size
      && forall i :: 0 <= i < size ==> entries[i].subdir == Cell(buffer, i)
    }

    /** Entry `i` as it is reached through its pointer. */
    ghost function RowAt(i: nat): Row
      requires Valid() && i < size
      reads this, buffer
    {
      var e := entries[i];
      Row(e.subdir.buffer[e.subdir.index], e.platform, e.channel, e.url)
    }

    ghost function Rows(): seq<Row>
      requires Valid()
      reads this, buffer
    {
      seq(size, i requires Valid() && 0 <= i < size reads this, buffer => RowAt(i))
    }

    constructor ()
      ensures Valid() && Rows() == [] && fresh(buffer)
    {
      buffer := new Loader[0];
      size, entries := 0, [];
    }

    /** `push_back`: a full buffer is replaced by a larger one, which leaves every pointer into
        the former buffer behind. */
    method PushBack(loader: Loader)
      requires size <= buffer.Length
      modifies this`buffer, this`size, buffer
      ensures size == old(size) + 1 <= buffer.Length
      ensures buffer[..size] == old(buffer[..size]) + [loader]
      ensures buffer == old(buffer) || fresh(buffer)
      ensures old(size < buffer.Length) <==> buffer == old(buffer)
    {
      if size == buffer.Length {
        var capacity :| capacity > size;
        var larger := new Loader[capacity];
        for i := 0 to size
          modifies larger
          invariant larger[..i] == buffer[..i]
        {
          larger[i] := buffer[i];
        }
        buffer := larger;
      }
      buffer[size] := loader;
      size := size + 1;
    }

    /** Let every entry point to the current cell of its subdir. */
    method Repoint()
      requires size <= buffer.Length && |entries| == size
      modifies this`entries
      ensures |entries| == size && forall k :: 0 <= k < size ==> entries[k].subdir == Cell(buffer, k)
      ensures forall k :: 0 <= k < size ==> entries[k] == old(entries)[k].(subdir := entries[k].subdir)
    {
      for i := 0 to size
        invariant |entries| == size
        invariant forall k :: 0 <= k < i ==> entries[k].subdir == Cell(buffer, k)
        invariant forall k :: 0 <= k < size ==> entries[k] == old(entries)[k].(subdir := entries[k].subdir)
      {
        entries := entries[i := entries[i].(subdir := Cell(buffer, i))];
      }
    }

    /** Add a subdir. If the loader cannot be created nothing changes; otherwise every entry,
        old and new, is reached through its pointer as it should be. */
    method Create(created: Option<Loader>, channel: string, platform: string, url: string)
        returns (ok: bool)
      requires Valid()
      modifies this, buffer
      ensures Valid() && (buffer == old(buffer) || fresh(buffer))
      ensures ok <==> created.Some?
      ensures !ok ==> unchanged(this) && unchanged(buffer)
      ensures Rows() == if ok then old(Rows()) + [Row(created.value, platform, channel, url)] else old(Rows())
    {
      if created.None? {
        return false;
      }
      ghost var rows, cells := Rows(), buffer[..size];
      assert forall i :: 0 <= i < size ==> rows[i].loader == cells[i];
      PushBack(created.value);
      entries := entries + [Entry(Null, platform, channel, url)];
      assert forall i :: 0 <= i < |rows| ==> buffer[i] == buffer[..size][i] == rows[i].loader;
      assert buffer[..size][size - 1] == created.value;
      Repoint();
      assert forall k :: 0 <= k < size ==>
               Row(buffer[k], entries[k].platform, entries[k].channel, entries[k].url)
               == (rows + [Row(created.value, platform, channel, url)])[k];
      return true;
    }
  }
}
