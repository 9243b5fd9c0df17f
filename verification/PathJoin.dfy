/** Joining a directory path and an entry name (src/file/bc_io_file_path.c). */
module PathJoin {
  import opened Bytes

  /** The joined path, without its terminating NUL. */
  function Joined(base: bytes, name: bytes): bytes {
    if base == [] then name else base + [SLASH] + name
  }

  /** A single path component: what the kernel hands out as an entry name. */
  predicate IsComponent(name: bytes) {
    SLASH !in name
  }

  /** Writes the joined path and its NUL into `buffer`, or leaves it alone when it does not fit. */
  method Join(buffer: array<byte>, base: bytes, name: bytes) returns (ok: bool, length: nat)
    modifies buffer
    ensures ok <==> |Joined(base, name)| < buffer.Length
    ensures ok ==> length == |Joined(base, name)|
    ensures ok ==> buffer[..length] == (if base == [] then name else base + [47] + name) == Joined(base, name)
    ensures ok ==> buffer[length] == 0
    ensures forall i :: (if ok then length < i else 0 <= i) && i < buffer.Length ==> buffer[i] == old(buffer[i])
  {
    length := 0;
    if |base| == 0 {
      if |name| + 1 > buffer.Length {
        return false, 0;
      }
      if |name| > 0 {
        Copy(buffer, 0, name);
      }
      buffer[|name|] := NUL;
      assert buffer[..|name|] == name;
      return true, |name|;
    }
    var totalLength := |base| + 1 + |name|;
    if totalLength + 1 > buffer.Length {
      return false, 0;
    }
    WriteJoined(buffer, base, name);
    return true, totalLength;
  }

  /** The copies that write base, separator, name and the terminating NUL. */
  method WriteJoined(buffer: array<byte>, base: bytes, name: bytes)
    requires |base| + 1 + |name| < buffer.Length
    modifies buffer
    ensures buffer[..|base| + 1 + |name|] == base + [SLASH] + name && buffer[|base| + 1 + |name|] == NUL
    ensures forall i :: |base| + 1 + |name| < i < buffer.Length ==> buffer[i] == old(buffer[i])
  {
    Copy(buffer, 0, base);
    buffer[|base|] := SLASH;
    assert buffer[..|base| + 1] == base + [SLASH];
    ghost var prefix := buffer[..|base| + 1];
    if |name| > 0 {
      Copy(buffer, |base| + 1, name);
    }
    assert buffer[..|base| + 1] == prefix;
    buffer[|base| + 1 + |name|] := NUL;
    assert buffer[|base| + 1..|base| + 1 + |name|] == name;
  }

  /** A path determines the directory it was joined from and the component added to it. */
  lemma JoinedIsInjective(base1: bytes, name1: bytes, base2: bytes, name2: bytes)
    requires IsComponent(name1) && IsComponent(name2)
    ensures Joined(base1, name1) == Joined(base2, name2) <==> base1 == base2 && name1 == name2
  {
    var p1, p2 := Joined(base1, name1), Joined(base2, name2);
    LastSlash(base1, name1);
    LastSlash(base2, name2);
    if p1 == p2 && base1 != [] && base2 != [] {
      assert |base1| == |base2|;
      assert p1[..|base1|] == base1 && p2[..|base2|] == base2;
      assert p1[|base1| + 1..] == name1 && p2[|base2| + 1..] == name2;
    }
  }

  /** The separator is the last slash of a joined path. */
  lemma LastSlash(base: bytes, name: bytes)
    requires IsComponent(name)
    ensures base != [] ==> Joined(base, name)[|base|] == SLASH
    ensures forall i :: 0 <= i < |Joined(base, name)| && (base == [] || i > |base|) ==> Joined(base, name)[i] != SLASH
  {
    forall i | 0 <= i < |Joined(base, name)| && (base == [] || i > |base|)
      ensures Joined(base, name)[i] != SLASH
    {
      assert Joined(base, name)[i] == name[if base == [] then i else i - |base| - 1];
    }
  }
}
