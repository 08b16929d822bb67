// Writing a cache file and decoding one (io.rs): a write shows readers the old content, the new
// content or no file, and a decode never grows past its cap.
module Io {
  import CacheFormat
  import opened Pieces
  import opened Wrappers

  type Name = string
  type Bytes = seq<CacheFormat.Byte>

  // ------------------------------------------------------------------ write_atomically

  // Which of the file operations succeed, and how much of the content a failed write leaves.
  datatype Luck = Luck(
    create: bool, write: bool, partial: Bytes, removeTemp: bool, rename: bool, removeTarget: bool, renameAgain: bool)

  // `states` are all the states the disk has been in, the present one last.
  class Disk {
    const windows: bool
    var files: map<Name, Bytes>
    ghost var states: seq<map<Name, Bytes>>

    ghost predicate Valid()
      reads this
    {
      states != [] && states[|states| - 1] == files
    }

    constructor (windows: bool, files: map<Name, Bytes>)
      ensures Valid() && this.windows == windows && this.files == files && states == [files]
    {
      this.windows := windows;
      this.files := files;
      states := [files];
    }

    method Put(name: Name, content: Bytes)
      requires Valid()
      modifies this
      ensures Valid() && files == old(files)[name := content] && states == old(states) + [files]
    {
      files := files[name := content];
      states := states + [files];
    }

    method Remove(name: Name, works: bool) returns (ok: bool)
      requires Valid()
      modifies this
      ensures Valid() && ok == (works && name in old(files)) && states == old(states) + [files]
      ensures files == if ok then old(files) - {name} else old(files)
    {
      ok := works && name in files;
      if ok {
        files := files - {name};
      }
      states := states + [files];
    }

    // One step for the readers: the target has the source's content or is untouched.
    method Rename(source: Name, target: Name, works: bool) returns (ok: bool)
      requires Valid() && source != target
      modifies this
      ensures Valid() && ok == (works && source in old(files)) && states == old(states) + [files]
      ensures files == if ok then old(files)[target := old(files)[source]] - {source} else old(files)
    {
      ok := works && source in files;
      if ok {
        files := files[target := files[source]] - {source};
      }
      states := states + [files];
    }

    // On success the target has the content; on failure it is as before, except that on Windows it is gone
    // if it was removed for a second rename that failed, too. No state in between shows a reader anything
    // else, and nothing but the target and the temporary file changes. A leftover temporary file of the same
    // name is overwritten; one stays only where its removal fails.
    method WriteAtomically(path: Name, temp: Name, content: Bytes, luck: Luck) returns (ok: bool)
      requires Valid() && temp != path
      modifies this
      ensures Valid() && Showed(old(files) - {temp}, old(states), states, path, temp, content, windows)
      ensures ok <==> luck.create && luck.write && Replaces(luck, windows, path in old(files))
      ensures ok ==> files == (old(files) - {temp})[path := content]
      ensures !ok ==>
        files - {temp} ==
        if luck.create && luck.write && Loses(luck, windows) then old(files) - {temp} - {path}
        else old(files) - {temp}
      ensures temp in files <==> !ok && !luck.removeTemp && (luck.create || temp in old(files))
    {
      var written := WriteTemp(path, temp, content, luck);
      if !written {
        return false;
      }
      ok := Replace(path, temp, content, luck, old(files) - {temp});
    }

    method WriteTemp(ghost path: Name, temp: Name, content: Bytes, luck: Luck) returns (ok: bool)
      requires Valid() && temp != path
      modifies this
      ensures Valid() && Showed(old(files) - {temp}, old(states), states, path, temp, content, windows)
      ensures ok ==> files == (old(files) - {temp})[temp := content]
      ensures ok == (luck.create && luck.write)
      ensures !ok ==> files - {temp} == old(files) - {temp}
      ensures !ok ==> (temp in files <==> !luck.removeTemp && (luck.create || temp in old(files)))
    {
      ghost var before := files - {temp};
      TempOnTop(before, path, temp, []);
      TempOnTop(before, path, temp, luck.partial);
      TempOnTop(before, path, temp, content);
      if !luck.create {
        var _ := Remove(temp, luck.removeTemp);
        return false;
      }
      Put(temp, []);
      assert files == before[temp := []];
      if !luck.write {
        Put(temp, luck.partial);
        assert files == before[temp := luck.partial];
        var _ := Remove(temp, luck.removeTemp);
        return false;
      }
      Put(temp, content);
      assert files == before[temp := content];
      ok := true;
    }

    method Replace(path: Name, temp: Name, content: Bytes, luck: Luck, ghost before: map<Name, Bytes>)
      returns (ok: bool)
      requires Valid() && temp != path && temp !in before && files == before[temp := content]
      modifies this
      ensures Valid() && Showed(before, old(states), states, path, temp, content, windows)
      ensures ok == Replaces(luck, windows, path in before)
      ensures ok ==> files == before[path := content]
      ensures !ok ==> files - {temp} == if Loses(luck, windows) then before - {path} else before
      ensures temp in files <==> !ok && !luck.removeTemp
    {
      TempOnTop(before, path, temp, content);
      Renamed(before, path, temp, content);
      ok := Rename(temp, path, luck.rename);
      if ok {
        return;
      }
      if windows && path in files {
        ok := Remove(path, luck.removeTarget);
        if ok {
          ok := Rename(temp, path, luck.renameAgain);
        }
        if ok {
          return;
        }
      }
      var _ := Remove(temp, luck.removeTemp);
    }
  }

  // The temporary file takes the target's place: at once, or on Windows once the target is out of the way.
  predicate Replaces(luck: Luck, windows: bool, there: bool) {
    luck.rename || (windows && there && luck.removeTarget && luck.renameAgain)
  }

  // The target, if there is one, is removed and not replaced.
  predicate Loses(luck: Luck, windows: bool) {
    windows && !luck.rename && luck.removeTarget && !luck.renameAgain
  }

  // What a reader may find while one file is being replaced: the disk as before, the new content in
  // place, or, on Windows, no file. The temporary file comes on top.
  predicate Shown(
    before: map<Name, Bytes>, now: map<Name, Bytes>, path: Name, temp: Name, content: Bytes, windows: bool)
  {
    || now - {temp} == before
    || now - {temp} == before[path := content]
    || (windows && now - {temp} == before - {path})
  }

  // The states a write went through, each of them one a reader may find.
  ghost predicate Showed(
    before: map<Name, Bytes>, was: seq<map<Name, Bytes>>, states: seq<map<Name, Bytes>>, path: Name, temp: Name,
    content: Bytes, windows: bool)
  {
    && was <= states
    && forall i | |was| <= i < |states| :: Shown(before, states[i], path, temp, content, windows)
  }

  lemma TempOnTop(before: map<Name, Bytes>, path: Name, temp: Name, bytes: Bytes)
    requires temp !in before && temp != path
    ensures before[temp := bytes] - {temp} == before && before - {temp} == before
    ensures before[temp := bytes] - {path} - {temp} == before - {path} && before - {path} - {temp} == before - {path}
  {
  }

  lemma Renamed(before: map<Name, Bytes>, path: Name, temp: Name, content: Bytes)
    requires temp !in before && temp != path
    ensures before[temp := content][path := content] - {temp} == before[path := content]
    ensures (before[temp := content] - {path})[path := content] - {temp} == before[path := content]
    ensures before[path := content] - {temp} == before[path := content]
  {
  }

  // ------------------------------------------------------------------ CappedWriter

  class CappedWriter {
    const max: nat
    var written: Bytes
    var remaining: nat

    ghost predicate Valid()
      reads this
    {
      |written| + remaining == max
    }

    constructor (max: nat)
      ensures Valid() && this.max == max && written == []
    {
      this.max := max;
      written := [];
      remaining := max;
    }

    // A buffer that does not fit is refused whole. The writer inside takes at most `takes` bytes.
    method Write(buf: Bytes, takes: nat) returns (ok: bool, n: nat)
      requires Valid() && 0 < takes
      modifies this`written, this`remaining
      ensures Valid() && ok == (|old(written)| + |buf| <= max)
      ensures n == if !ok then 0 else if takes < |buf| then takes else |buf|
      ensures written == old(written) + buf[..n]
    {
      if |buf| > remaining {
        return false, 0;
      }
      n := if takes < |buf| then takes else |buf|;
      written := written + buf[..n];
      remaining := remaining - n;
      ok := true;
    }

    // Write a whole buffer in as many writes as it takes.
    method WriteAll(buf: Bytes, takes: nat) returns (ok: bool)
      requires Valid() && 0 < takes
      modifies this`written, this`remaining
      ensures Valid() && ok == (|old(written)| + |buf| <= max)
      ensures written == old(written) + if ok then buf else []
    {
      var at := 0;
      while at < |buf|
        invariant 0 <= at <= |buf| && Valid() && written == old(written) + buf[..at]
        invariant at > 0 ==> |old(written)| + |buf| <= max
      {
        var n;
        ok, n := Write(buf[at..], takes);
        if !ok {
          return;
        }
        assert buf[..at] + buf[at..][..n] == buf[..at + n];
        at := at + n;
      }
      ok := true;
      assert buf[..|buf|] == buf;
    }
  }

  // Decompression hands its output over in blocks, and reports a damaged frame once it has reached the
  // damage. It succeeds exactly when the frame is intact, any size it declares is within the cap, and
  // so is the whole output. What was written before a refusal is the start of it, within the cap.
  method DecodeCapped(declared: Option<nat>, blocks: seq<Bytes>, intact: bool, maxBytes: nat, takes: nat)
    returns (ok: bool, out: Bytes)
    requires 0 < takes
    ensures ok <==> (declared.Some? ==> declared.value <= maxBytes) && intact && |Flat(blocks)| <= maxBytes
    ensures ok ==> out == Flat(blocks)
    ensures out <= Flat(blocks) && |out| <= maxBytes
  {
    if declared.Some? && declared.value > maxBytes {
      return false, [];
    }
    var writer := new CappedWriter(maxBytes);
    for i := 0 to |blocks|
      invariant fresh(writer) && writer.Valid() && writer.max == maxBytes
      invariant writer.written == Flat(blocks[..i])
    {
      FlatSlice(blocks, i);
      ok := writer.WriteAll(blocks[i], takes);
      if !ok {
        return false, writer.written;
      }
    }
    assert blocks[..|blocks|] == blocks;
    return intact, writer.written;
  }
}
