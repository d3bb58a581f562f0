/** `create_dir_path`: path text rebuilt in a fixed buffer from the names up the tree. */
module CachePath {
  import opened Limits
  import opened CacheTree

  const NUL: char := '\0'

  /** `strcpy(buf + pos, s)`. */
  method Strcpy(buf: array<char>, pos: nat, s: string)
    requires pos + |s| < buf.Length
    modifies buf
    ensures buf[..pos + |s|] == old(buf[..pos]) + s && buf[pos + |s|] == NUL
    ensures forall i :: pos + |s| < i < buf.Length ==> buf[i] == old(buf[i])
  {
    var i := 0;
    while i < |s|
      invariant 0 <= i <= |s|
      invariant forall j :: 0 <= j < pos ==> buf[j] == old(buf[j])
      invariant forall j :: 0 <= j < i ==> buf[pos + j] == s[j]
      invariant forall j :: pos + |s| < j < buf.Length ==> buf[j] == old(buf[j])
    {
      buf[pos + i] := s[i];
      i := i + 1;
    }
    buf[pos + |s|] := NUL;
  }

  /** `create_dir_path`: returns the position of the terminator. */
  method CreateDirPath(buf: array<char>, t: seq<Node>, d: int) returns (pos: nat)
    requires Rooted(t) && 0 <= d < |t| && |Path(t, d)| < buf.Length
    modifies buf
    ensures pos == |Path(t, d)| && buf[..pos] == Path(t, d) && buf[pos] == NUL
    ensures forall i :: pos < i < buf.Length ==> buf[i] == old(buf[i])
    decreases d
  {
    pos := 0;
    if t[d].parent >= 0 {
      pos := CreateDirPath(buf, t, t[d].parent);
    }
    Strcpy(buf, pos, t[d].name);
    ghost var text := buf[..pos + |t[d].name|];
    pos := pos + |t[d].name|;
    buf[pos] := '/';
    buf[pos + 1] := NUL;
    assert buf[..pos] == text;
    pos := pos + 1;
    assert buf[..pos] == text + "/";
  }

  /** `strcpy(create_dir_path(path, file->dir), file->name)`. */
  method CreateFilePath(buf: array<char>, t: seq<Node>, f: File) returns (end: nat)
    requires Rooted(t) && 0 <= f.dir < |t| && |FilePath(t, f)| < buf.Length
    modifies buf
    ensures end == |FilePath(t, f)| && buf[..end] == FilePath(t, f) && buf[end] == NUL
  {
    var pos := CreateDirPath(buf, t, f.dir);
    Strcpy(buf, pos, f.name);
    end := pos + |f.name|;
  }
}
