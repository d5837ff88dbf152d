/**
 * Static-file request handling of the provisioning web server: splitting the
 * requested path into file name and extension, the case-insensitive MIME
 * lookup, re-joining name and extension, the exact-name lookup among the
 * embedded files, and the GET routing decision built from them.
 *
 * C strings live in fixed-size `char` buffers.  A buffer is a `seq<char>` (or
 * an `array<char>` where the firmware writes into it); its C-string value is
 * the prefix before the first NUL (`CStr`).
 */
module ServiceWebserver {
  import opened Wrappers

  const MAX_PATH_LEN: nat := 64
  const MAX_FILE_LEN: nat := 32
  const MAX_EXTENSION_LEN: nat := 16

  const NUL: char := '\0'

  // ---------------------------------------------------------------------
  // C strings
  // ---------------------------------------------------------------------

  /** strlen: the index of the first NUL, or the whole buffer if there is none. */
  function StrLen(s: seq<char>): (n: nat)
    ensures n <= |s|
    ensures forall i :: 0 <= i < n ==> s[i] != NUL
    ensures n < |s| ==> s[n] == NUL
  {
    if s == [] then 0 else if s[0] == NUL then 0 else 1 + StrLen(s[1..])
  }

  /** The C-string value of a buffer. */
  function CStr(s: seq<char>): (r: string)
    ensures NUL !in r
    ensures NUL in s ==> |r| < |s| && s[|r|] == NUL
  {
    s[..StrLen(s)]
  }

  /** A string followed by its terminator reads back as that string. */
  lemma CStrOfTerminated(s: string, rest: seq<char>)
    requires NUL !in s && rest != [] && rest[0] == NUL
    ensures CStr(s + rest) == s
  {
    assert (s + rest)[|s|] == NUL;
  }

  /** `s` followed by NULs up to `size` bytes: a zeroed buffer holding `s`. */
  function Padded(s: string, size: nat): (r: seq<char>)
    requires |s| < size
    ensures |r| == size && r[..|s|] == s
  {
    s + seq(size - |s|, _ => NUL)
  }

  lemma CStrOfPadded(s: string, size: nat)
    requires NUL !in s && |s| < size
    ensures CStr(Padded(s, size)) == s
  {
    CStrOfTerminated(s, seq(size - |s|, _ => NUL));
  }

  function Truncate(s: string, n: nat): (r: string)
    ensures |r| <= n && |r| <= |s| && r == s[..|r|]
    ensures |s| <= n ==> r == s
    ensures |s| > n ==> |r| == n
  {
    if |s| <= n then s else s[..n]
  }

  /** ASCII tolower, as strcasecmp applies it in the C locale. */
  function Lower(c: char): char {
    if 'A' <= c <= 'Z' then (c as int + 32) as char else c
  }

  /** strcasecmp(a, b) == 0 for NUL-free strings. */
  predicate EqualIgnoringCase(a: string, b: string) {
    |a| == |b| && forall k :: 0 <= k < |a| ==> Lower(a[k]) == Lower(b[k])
  }

  // ---------------------------------------------------------------------
  // The constant tables
  // ---------------------------------------------------------------------

  datatype ContentType = ContentType(ext: string, mime: string)

  /** Extensions are stored with their leading dot. */
  const FILE_EXTENSION_TABLE: seq<ContentType> := [
    ContentType(".txt", "text/plain"),
    ContentType(".html", "text/html"),
    ContentType(".js", "application/javascript"),
    ContentType(".css", "text/css"),
    ContentType(".png", "image/png"),
    ContentType(".ico", "image/x-icon")
  ]

  /** Names of the embedded files; their contents are linked into the image. */
  const FILE_INFO_TABLE: seq<string> := ["index.html", "style.css", "script.js", "favicon.ico"]

  // ---------------------------------------------------------------------
  // GetContentType
  // ---------------------------------------------------------------------

  /** Table entry `i` matches `extension`, its leading dot skipped. */
  predicate ExtensionMatches(extension: string, i: nat)
    requires i < |FILE_EXTENSION_TABLE|
  {
    EqualIgnoringCase(extension, FILE_EXTENSION_TABLE[i].ext[1..])
  }

  /** The first entry from `i` on that matches, if any. */
  function ContentTypeFrom(extension: string, i: nat): Option<string>
    requires i <= |FILE_EXTENSION_TABLE|
    decreases |FILE_EXTENSION_TABLE| - i
  {
    if i == |FILE_EXTENSION_TABLE| then None
    else if ExtensionMatches(extension, i) then Some(FILE_EXTENSION_TABLE[i].mime)
    else ContentTypeFrom(extension, i + 1)
  }

  function ContentTypeOf(extension: string): Option<string> {
    ContentTypeFrom(extension, 0)
  }

  lemma {:induction false} ContentTypeFromMeans(extension: string, i: nat)
    requires i <= |FILE_EXTENSION_TABLE|
    ensures ContentTypeFrom(extension, i).None? <==>
      forall j :: i <= j < |FILE_EXTENSION_TABLE| ==> !ExtensionMatches(extension, j)
    ensures ContentTypeFrom(extension, i).Some? ==>
      exists j :: i <= j < |FILE_EXTENSION_TABLE| && ExtensionMatches(extension, j)
        && ContentTypeFrom(extension, i).value == FILE_EXTENSION_TABLE[j].mime
        && forall k :: i <= k < j ==> !ExtensionMatches(extension, k)
    decreases |FILE_EXTENSION_TABLE| - i
  {
    if i < |FILE_EXTENSION_TABLE| {
      if ExtensionMatches(extension, i) {
        assert ContentTypeFrom(extension, i) == Some(FILE_EXTENSION_TABLE[i].mime);
      } else {
        ContentTypeFromMeans(extension, i + 1);
        assert ContentTypeFrom(extension, i) == ContentTypeFrom(extension, i + 1);
        if ContentTypeFrom(extension, i + 1).Some? {
          var j :| i + 1 <= j < |FILE_EXTENSION_TABLE| && ExtensionMatches(extension, j)
            && ContentTypeFrom(extension, i + 1).value == FILE_EXTENSION_TABLE[j].mime
            && forall k :: i + 1 <= k < j ==> !ExtensionMatches(extension, k);
          assert forall k :: i <= k < j ==> !ExtensionMatches(extension, k);
        }
      }
    }
  }

  /** The MIME type is that of the first entry whose extension equals the
      argument ignoring case, and there is none exactly when no entry matches. */
  lemma ContentTypeOfMeans(extension: string)
    ensures ContentTypeOf(extension).None? <==>
      forall j :: 0 <= j < |FILE_EXTENSION_TABLE| ==> !ExtensionMatches(extension, j)
    ensures ContentTypeOf(extension).Some? ==>
      exists j :: 0 <= j < |FILE_EXTENSION_TABLE| && ExtensionMatches(extension, j)
        && ContentTypeOf(extension).value == FILE_EXTENSION_TABLE[j].mime
        && forall k :: 0 <= k < j ==> !ExtensionMatches(extension, k)
  {
    ContentTypeFromMeans(extension, 0);
  }

  /** The extension lookup ignores case: any spelling of a table extension
      yields that entry's MIME type. */
  lemma ContentTypeIgnoresCase(extension: string, i: nat)
    requires i < |FILE_EXTENSION_TABLE| && ExtensionMatches(extension, i)
    ensures ContentTypeOf(extension) == Some(FILE_EXTENSION_TABLE[i].mime)
  {
    ContentTypeOfMeans(extension);
    var j :| 0 <= j < |FILE_EXTENSION_TABLE| && ExtensionMatches(extension, j)
      && ContentTypeOf(extension).value == FILE_EXTENSION_TABLE[j].mime
      && forall k :: 0 <= k < j ==> !ExtensionMatches(extension, k);
    TableExtensionsLowerCase(i);
    TableExtensionsLowerCase(j);
    SameMatchIsEqual(extension, FILE_EXTENSION_TABLE[j].ext[1..], FILE_EXTENSION_TABLE[i].ext[1..]);
    TableExtensionsDistinct(i, j);
  }

  predicate IsLowerCase(s: string) {
    forall k :: 0 <= k < |s| ==> Lower(s[k]) == s[k]
  }

  lemma TableExtensionsLowerCase(i: nat)
    requires i < |FILE_EXTENSION_TABLE|
    ensures IsLowerCase(FILE_EXTENSION_TABLE[i].ext[1..])
  {
  }

  /** Two lower-case strings equal to the same string ignoring case are equal. */
  lemma SameMatchIsEqual(x: string, a: string, b: string)
    requires EqualIgnoringCase(x, a) && EqualIgnoringCase(x, b)
    requires IsLowerCase(a) && IsLowerCase(b)
    ensures a == b
  {
    assert forall k :: 0 <= k < |a| ==> a[k] == Lower(a[k]) == Lower(x[k]) == Lower(b[k]) == b[k];
  }

  lemma TableExtensionsDistinct(i: nat, j: nat)
    requires i < |FILE_EXTENSION_TABLE| && j < |FILE_EXTENSION_TABLE|
    ensures FILE_EXTENSION_TABLE[i].ext[1..] == FILE_EXTENSION_TABLE[j].ext[1..] ==> i == j
  {
  }

  /** GetContentType: linear search with a found flag. */
  method GetContentType(extension: string) returns (r: Option<string>)
    ensures r == ContentTypeOf(extension)
  {
    var found := false;
    var i := 0;
    while i < |FILE_EXTENSION_TABLE|
      invariant i <= |FILE_EXTENSION_TABLE|
      invariant ContentTypeFrom(extension, i) == ContentTypeOf(extension)
    {
      if EqualIgnoringCase(extension, FILE_EXTENSION_TABLE[i].ext[1..]) {
        found := true;
        break;
      }
      i := i + 1;
    }
    if found {
      r := Some(FILE_EXTENSION_TABLE[i].mime);
    } else {
      r := None;
    }
  }

  // ---------------------------------------------------------------------
  // GetFileInfo
  // ---------------------------------------------------------------------

  function FileIndexFrom(filename: string, i: nat): (r: Option<nat>)
    requires i <= |FILE_INFO_TABLE|
    ensures r.Some? ==> i <= r.value < |FILE_INFO_TABLE| && FILE_INFO_TABLE[r.value] == filename
    decreases |FILE_INFO_TABLE| - i
  {
    if i == |FILE_INFO_TABLE| then None
    else if filename == FILE_INFO_TABLE[i] then Some(i)
    else FileIndexFrom(filename, i + 1)
  }

  function FileIndexOf(filename: string): (r: Option<nat>)
    ensures r.Some? ==> r.value < |FILE_INFO_TABLE|
  {
    FileIndexFrom(filename, 0)
  }

  lemma {:induction false} FileIndexFromMeans(filename: string, i: nat)
    requires i <= |FILE_INFO_TABLE|
    ensures FileIndexFrom(filename, i).None? ==>
      forall j :: i <= j < |FILE_INFO_TABLE| ==> FILE_INFO_TABLE[j] != filename
    decreases |FILE_INFO_TABLE| - i
  {
    if i < |FILE_INFO_TABLE| && filename != FILE_INFO_TABLE[i] {
      FileIndexFromMeans(filename, i + 1);
    }
  }

  /** An entry is found exactly for the four embedded names, compared
      case-sensitively, and it is the entry of that name. */
  lemma FileIndexOfMeans(filename: string)
    ensures FileIndexOf(filename).Some? <==> filename in FILE_INFO_TABLE
    ensures FileIndexOf(filename).Some? ==>
      FileIndexOf(filename).value < |FILE_INFO_TABLE|
      && FILE_INFO_TABLE[FileIndexOf(filename).value] == filename
  {
    FileIndexFromMeans(filename, 0);
  }

  /** GetFileInfo: linear search with a found flag. */
  method GetFileInfo(filename: string) returns (r: Option<nat>)
    ensures r == FileIndexOf(filename)
  {
    var found := false;
    var i := 0;
    while i < |FILE_INFO_TABLE|
      invariant i <= |FILE_INFO_TABLE|
      invariant FileIndexFrom(filename, i) == FileIndexOf(filename)
    {
      if filename == FILE_INFO_TABLE[i] {
        found := true;
        break;
      }
      i := i + 1;
    }
    if found {
      r := Some(i);
    } else {
      r := None;
    }
  }

  // ---------------------------------------------------------------------
  // GetFilenameAndExtension
  // ---------------------------------------------------------------------

  predicate IsSeparator(c: char) { c == '/' || c == '\\' }

  /** Where the scan of the path leaves its two pointers: `slash` just after
      the last separator, `dot` at the last '.' seen since then. */
  datatype Scan = Scan(slash: nat, dot: Option<nat>)

  /** The scan over the characters of `t`, one character at a time. */
  function ScanPath(t: string): (r: Scan)
    ensures r.slash <= |t|
    ensures r.dot.Some? ==> r.slash <= r.dot.value < |t|
  {
    if t == [] then Scan(0, None)
    else
      var c := t[|t| - 1];
      if IsSeparator(c) then Scan(|t|, None)
      else if c == '.' then Scan(ScanPath(t[..|t| - 1]).slash, Some(|t| - 1))
      else ScanPath(t[..|t| - 1])
  }

  /** The scan finds the last path segment and the last '.' inside it. */
  lemma {:induction false} ScanPathFindsLastSegment(t: string)
    ensures var r := ScanPath(t);
      && (r.slash == 0 || IsSeparator(t[r.slash - 1]))
      && (forall i :: r.slash <= i < |t| ==> !IsSeparator(t[i]))
      && (r.dot.Some? ==>
            t[r.dot.value] == '.' && forall i :: r.dot.value < i < |t| ==> t[i] != '.')
      && (r.dot.None? ==> forall i :: r.slash <= i < |t| ==> t[i] != '.')
  {
    if t != [] {
      var u := t[..|t| - 1];
      ScanPathFindsLastSegment(u);
      assert forall i :: 0 <= i < |u| ==> t[i] == u[i];
    }
  }

  /** The file name the split produces for the path string `t`. */
  function Stem(t: string, filenameSize: nat): string
    requires filenameSize >= 1
  {
    var r := ScanPath(t);
    if r.dot.Some? then t[r.slash..r.dot.value] else Truncate(t[r.slash..], filenameSize - 1)
  }

  /** The extension the split produces for the path string `t`. */
  function Extension(t: string, extensionSize: nat): string
    requires extensionSize >= 1
  {
    var r := ScanPath(t);
    if r.dot.Some? then Truncate(t[r.dot.value + 1..], extensionSize - 1) else []
  }

  /** What the split needs to stay inside its buffers: with a dot, the stem
      must be shorter than the file-name buffer (the terminator is written at
      index dot - slash); without one, filenameSize - 1 bytes are read from
      the start of the segment, whatever the terminator, so they must lie in
      the path buffer. */
  predicate SplitFits(path: seq<char>, filenameSize: nat) {
    var r := ScanPath(CStr(path));
    if r.dot.Some? then r.dot.value - r.slash < filenameSize
    else r.slash + filenameSize <= |path| + 1
  }

  /** The bytes the split copies into the file-name buffer: up to the dot, or
      filenameSize - 1 bytes from the start of the segment when there is no
      dot (past the path's terminator if the segment is shorter). */
  function StemBytes(path: seq<char>, filenameSize: nat): (r: seq<char>)
    requires NUL in path && filenameSize >= 1 && SplitFits(path, filenameSize)
    ensures |r| < filenameSize
  {
    var sc := ScanPath(CStr(path));
    if sc.dot.Some? then path[sc.slash..sc.dot.value]
    else path[sc.slash..sc.slash + filenameSize - 1]
  }

  method GetFilenameAndExtension(path: seq<char>, filename: array<char>, extension: array<char>)
    requires NUL in path && |path| < U16_RANGE
    requires 1 <= filename.Length < U16_RANGE && 1 <= extension.Length < U16_RANGE
    requires filename != extension
    requires SplitFits(path, filename.Length)
    modifies filename, extension
    ensures CStr(filename[..]) == Stem(CStr(path), filename.Length)
    ensures CStr(extension[..]) == Extension(CStr(path), extension.Length)
    ensures var copied := StemBytes(path, filename.Length);
      && filename[..|copied|] == copied
      && filename[|copied|] == NUL
      && forall k :: |copied| < k < filename.Length ==> filename[k] == old(filename[k])
    ensures forall k :: |Extension(CStr(path), extension.Length)| < k < extension.Length ==>
      extension[k] == old(extension[k])
    ensures NUL in filename[..] && NUL in extension[..]
  {
    var slash, dot := ScanSegment(path);

    // Copy the file name up to the dot, or filename_size - 1 bytes.
    var fnameLen := if dot.Some? then dot.value - slash else filename.Length - 1;
    var i := 0;
    while i < fnameLen && i < filename.Length - 1
      invariant i <= fnameLen && i <= filename.Length - 1
      invariant forall k :: 0 <= k < i ==> filename[k] == path[slash + k]
      invariant forall k :: i <= k < filename.Length ==> filename[k] == old(filename[k])
      modifies filename
    {
      filename[i] := path[slash + i];
      i := i + 1;
    }
    filename[fnameLen] := NUL;
    assert filename[..fnameLen] == StemBytes(path, filename.Length);
    assert filename[..][fnameLen] == NUL;
    StemIsCopied(path, slash, dot, filename.Length, filename[..]);

    // Copy the extension if there is a dot.
    if dot.Some? {
      CopyExtension(path, dot.value, extension);
    } else {
      extension[0] := NUL;
      assert extension[..][0] == NUL;
      assert Extension(CStr(path), extension.Length) == [];
      assert CStr(extension[..]) == [];
    }
  }

  /** The first loop of GetFilenameAndExtension: walk the C string, keeping
      the position after the last separator and the last dot seen since. */
  method ScanSegment(path: seq<char>) returns (slash: nat, dot: Option<nat>)
    requires NUL in path
    ensures Scan(slash, dot) == ScanPath(CStr(path))
  {
    ghost var t := CStr(path);
    var p := 0;
    slash, dot := 0, None;
    while path[p] != NUL
      invariant p <= |t|
      invariant Scan(slash, dot) == ScanPath(t[..p])
      decreases |t| - p
    {
      assert t[..p + 1][..p] == t[..p];
      if path[p] == '/' || path[p] == '\\' {
        slash := p + 1;
        dot := None;
      } else if path[p] == '.' {
        dot := Some(p);
      }
      p := p + 1;
    }
    assert t[..p] == t;
  }

  /** The extension loop of GetFilenameAndExtension: copy what follows the
      dot up to the terminator or extension_size - 1 characters. */
  method CopyExtension(path: seq<char>, dot: nat, extension: array<char>)
    requires NUL in path && 1 <= extension.Length
    requires ScanPath(CStr(path)).dot == Some(dot)
    modifies extension
    ensures CStr(extension[..]) == Extension(CStr(path), extension.Length)
    ensures forall k :: |Extension(CStr(path), extension.Length)| < k < extension.Length ==>
      extension[k] == old(extension[k])
    ensures NUL in extension[..]
  {
    ghost var n := |CStr(path)|;
    var extLen := 0;
    while path[dot + 1 + extLen] != NUL && extLen < extension.Length - 1
      invariant dot + 1 + extLen <= n
      invariant extLen <= extension.Length - 1
      invariant forall k :: 0 <= k < extLen ==> extension[k] == path[dot + 1 + k]
      invariant forall k :: extLen <= k < extension.Length ==> extension[k] == old(extension[k])
      decreases n - extLen
    {
      extension[extLen] := path[dot + 1 + extLen];
      extLen := extLen + 1;
    }
    extension[extLen] := NUL;
    assert extension[..][extLen] == NUL;
    ExtensionIsCopied(path, dot, extension.Length, extLen, extension[..]);
  }

  /** A buffer whose first `m` bytes hold no NUL and whose byte `m` is NUL. */
  lemma CStrOfPrefix(buf: seq<char>, m: nat)
    requires m < |buf| && NUL !in buf[..m] && buf[m] == NUL
    ensures CStr(buf) == buf[..m]
  {
    assert buf == buf[..m] + buf[m..];
    CStrOfTerminated(buf[..m], buf[m..]);
  }

  /** The bytes left in the file-name buffer read back as the stem. */
  lemma StemIsCopied(path: seq<char>, slash: nat, dot: Option<nat>, size: nat, buf: seq<char>)
    requires NUL in path && size >= 1 && |buf| == size
    requires Scan(slash, dot) == ScanPath(CStr(path))
    requires var len := if dot.Some? then dot.value - slash else size - 1;
      && len < size
      && slash + len <= |path|
      && (forall k :: 0 <= k < len ==> buf[k] == path[slash + k])
      && buf[len] == NUL
    ensures CStr(buf) == Stem(CStr(path), size)
  {
    var t := CStr(path);
    var stem := Stem(t, size);
    var m := |stem|;
    assert forall k :: 0 <= k < |t| ==> t[k] == path[k];
    assert forall k :: 0 <= k < m ==> buf[k] == stem[k];
    assert buf[..m] == stem;
    if dot.None? && m < size - 1 {
      // The copy ran past the terminator of the path.
      assert slash + m == |t|;
      assert buf[m] == path[|t|];
    }
    CStrOfPrefix(buf, m);
  }

  /** The bytes left in the extension buffer read back as the extension. */
  lemma ExtensionIsCopied(path: seq<char>, dot: nat, size: nat, len: nat, buf: seq<char>)
    requires NUL in path && size >= 1 && |buf| == size
    requires ScanPath(CStr(path)).dot == Some(dot)
    requires dot + 1 + len <= |CStr(path)| && len <= size - 1
    requires dot + 1 + len == |CStr(path)| || len == size - 1
    requires (forall k :: 0 <= k < len ==> buf[k] == path[dot + 1 + k])
    requires len < size && buf[len] == NUL
    ensures CStr(buf) == Extension(CStr(path), size)
    ensures |Extension(CStr(path), size)| == len
  {
    var t := CStr(path);
    var ext := Truncate(t[dot + 1..], size - 1);
    assert buf == ext + buf[len..];
    CStrOfTerminated(ext, buf[len..]);
  }

  // ---------------------------------------------------------------------
  // MakeFullFilename
  // ---------------------------------------------------------------------

  /** The name put back together: the '.' only when there is an extension. */
  function Join(stem: string, extension: string): string {
    if extension == [] then stem else stem + "." + extension
  }

  method MakeFullFilename(buffer: array<char>, filename: seq<char>, extension: seq<char>)
    requires 1 <= buffer.Length < U16_RANGE
    requires NUL in filename && NUL in extension
    modifies buffer
    ensures var joined := Truncate(Join(CStr(filename), CStr(extension)), buffer.Length - 1);
      && buffer[..|joined|] == joined
      && buffer[|joined|] == NUL
      && forall k :: |joined| < k < buffer.Length ==> buffer[k] == old(buffer[k])
    ensures CStr(buffer[..]) == Truncate(Join(CStr(filename), CStr(extension)), buffer.Length - 1)
  {
    ghost var stem := CStr(filename);
    ghost var ext := CStr(extension);
    ghost var joined := Join(stem, ext);
    var size := buffer.Length;
    var len := 0;
    while filename[len] != NUL && len < size - 1
      invariant len <= |stem| && len <= size - 1
      decreases |stem| - len
      invariant forall k :: 0 <= k < len ==> buffer[k] == stem[k]
      invariant forall k :: len <= k < size ==> buffer[k] == old(buffer[k])
    {
      buffer[len] := filename[len];
      len := len + 1;
    }
    if extension[0] != NUL && len < size - 1 {
      buffer[len] := '.';
      len := len + 1;
    }
    var e := 0;
    while extension[e] != NUL && len < size - 1
      invariant e <= |ext| && len <= size - 1
      decreases |ext| - e
      invariant ext != [] && len < size - 1 ==> len == |stem| + 1 + e
      invariant ext != [] && len == size - 1 && e > 0 ==> len == |stem| + 1 + e
      invariant ext == [] ==> e == 0 && len == Min(|stem|, size - 1)
      invariant len < size - 1 ==> len >= |stem|
      invariant len <= |joined|
      invariant forall k :: 0 <= k < len ==> buffer[k] == joined[k]
      invariant forall k :: len <= k < size ==> buffer[k] == old(buffer[k])
    {
      buffer[len] := extension[e];
      len := len + 1;
      e := e + 1;
    }
    buffer[len] := NUL;
    if ext == [] {
      assert joined == stem;
    } else {
      assert |joined| == |stem| + 1 + |ext|;
    }
    assert len == |Truncate(joined, size - 1)|;
    assert buffer[..len] == Truncate(joined, size - 1);
    assert buffer[..] == Truncate(joined, size - 1) + buffer[len..];
    CStrOfTerminated(Truncate(joined, size - 1), buffer[len..]);
  }


  // ---------------------------------------------------------------------
  // Split and join of a path whose last segment is stem.ext
  // ---------------------------------------------------------------------

  /** The path up to its last segment: empty, or ending in a separator. */
  predicate IsDirectory(dir: string) { dir == [] || IsSeparator(dir[|dir| - 1]) }

  predicate NoSeparator(s: string) { forall i :: 0 <= i < |s| ==> !IsSeparator(s[i]) }

  predicate NoDot(s: string) { forall i :: 0 <= i < |s| ==> s[i] != '.' }

  /** Characters that are neither separators nor dots leave the scan as it was. */
  lemma {:induction false} ScanSkipsPlainSuffix(u: string, s: string)
    requires NoSeparator(s) && NoDot(s)
    ensures ScanPath(u + s) == ScanPath(u)
  {
    if s != [] {
      var s' := s[..|s| - 1];
      assert (u + s)[..|u + s| - 1] == u + s';
      var c := (u + s)[|u + s| - 1];
      assert c == s[|s| - 1] && !IsSeparator(c) && c != '.';
      ScanSkipsPlainSuffix(u, s');
      assert ScanPath(u + s) == ScanPath(u + s');
    } else {
      assert u + s == u;
    }
  }

  /** Characters that are not separators leave the segment start where it was. */
  lemma {:induction false} ScanKeepsSegmentStart(u: string, s: string)
    requires NoSeparator(s)
    ensures ScanPath(u + s).slash == ScanPath(u).slash
  {
    if s != [] {
      var s' := s[..|s| - 1];
      assert (u + s)[..|u + s| - 1] == u + s';
      var c := (u + s)[|u + s| - 1];
      assert c == s[|s| - 1] && !IsSeparator(c);
      ScanKeepsSegmentStart(u, s');
      assert ScanPath(u + s).slash == ScanPath(u + s').slash;
    } else {
      assert u + s == u;
    }
  }

  lemma ScanOfDirectory(dir: string)
    requires IsDirectory(dir)
    ensures ScanPath(dir) == Scan(|dir|, None)
  {
  }

  /** A dot ends the scan's view of stem + ".": the dot is the last one. */
  lemma ScanOfStemDot(dir: string, stem: string)
    requires IsDirectory(dir) && NoSeparator(stem)
    ensures ScanPath(dir + stem + ".") == Scan(|dir|, Some(|dir| + |stem|))
  {
    var u := dir + stem + ".";
    assert u[..|u| - 1] == dir + stem;
    assert u[|u| - 1] == '.';
    ScanKeepsSegmentStart(dir, stem);
    ScanOfDirectory(dir);
  }

  /** For dir + stem + "." + ext the scan stops at the start of stem and at
      the dot before ext, even when stem itself holds dots ("a.b.c" gives
      stem "a.b"). */
  lemma ScanOfStemDotExtension(dir: string, stem: string, ext: string)
    requires IsDirectory(dir) && NoSeparator(stem) && NoSeparator(ext) && NoDot(ext)
    ensures ScanPath(dir + stem + "." + ext) == Scan(|dir|, Some(|dir| + |stem|))
  {
    ScanSkipsPlainSuffix(dir + stem + ".", ext);
    ScanOfStemDot(dir, stem);
  }

  /** For dir + seg, seg without dots, the scan finds seg and no dot. */
  lemma ScanOfPlainSegment(dir: string, seg: string)
    requires IsDirectory(dir) && NoSeparator(seg) && NoDot(seg)
    ensures ScanPath(dir + seg) == Scan(|dir|, None)
  {
    ScanSkipsPlainSuffix(dir, seg);
    ScanOfDirectory(dir);
  }

  /** Split then join gives the last segment back when it is stem.ext with a
      non-empty extension and every part fits its buffer. */
  lemma SplitJoinRoundTrip(dir: string, stem: string, ext: string,
                           filenameSize: nat, extensionSize: nat, bufferSize: nat)
    requires IsDirectory(dir) && NoSeparator(stem) && NoSeparator(ext) && NoDot(ext)
    requires ext != []
    requires |stem| < filenameSize && 1 <= |ext| + 1 <= extensionSize
    requires |stem| + 1 + |ext| < bufferSize
    ensures var t := dir + stem + "." + ext;
      && Stem(t, filenameSize) == stem
      && Extension(t, extensionSize) == ext
      && Truncate(Join(Stem(t, filenameSize), Extension(t, extensionSize)), bufferSize - 1)
         == stem + "." + ext
  {
    var t := dir + stem + "." + ext;
    ScanOfStemDotExtension(dir, stem, ext);
    assert t[|dir|..|dir| + |stem|] == stem;
    assert t[|dir| + |stem| + 1..] == ext;
  }

  // ---------------------------------------------------------------------
  // GenericGetHandler
  // ---------------------------------------------------------------------

  /** What the GET handler sends.  OutOfBounds stands for the requests on
      which the split would write or read outside its buffers. */
  datatype Reply =
    | SendFile(contentType: string, name: string, length: int)
    | SendError500(message: string)
    | OutOfBounds

  /** The path the handler splits: a trailing '/' asks for the index page,
      anything else is copied into the 64-byte path buffer with truncation. */
  function FilePath(uri: string): (t: string)
    requires |uri| >= 1
    ensures |t| < MAX_PATH_LEN
  {
    if uri[|uri| - 1] == '/' then "/index.html" else Truncate(uri, MAX_PATH_LEN - 1)
  }

  /** The routing decision for a request URI; `fileSizes` are the sizes of
      the embedded files, each including its trailing NUL. */
  function Route(uri: string, fileSizes: seq<int>): Reply
    requires |uri| >= 1 && |fileSizes| == |FILE_INFO_TABLE|
  {
    var t := FilePath(uri);
    if !SplitFits(Padded(t, MAX_PATH_LEN), MAX_FILE_LEN) then OutOfBounds
    else
      var path := CStr(Padded(t, MAX_PATH_LEN));
      ReplyFor(Stem(path, MAX_FILE_LEN), Extension(path, MAX_EXTENSION_LEN), fileSizes)
  }

  /** The reply for a split file name, shared by the handler and Route. */
  function ReplyFor(stem: string, ext: string, fileSizes: seq<int>): Reply
    requires |fileSizes| == |FILE_INFO_TABLE|
  {
    match ContentTypeOf(ext)
    case None => SendError500("file not supported")
    case Some(mime) =>
      match FileIndexOf(Truncate(Join(stem, ext), MAX_PATH_LEN - 1))
      case None => SendError500("failed to send")
      case Some(i) => SendFile(mime, FILE_INFO_TABLE[i], fileSizes[i] - 1)
  }

  method GenericGetHandler(uri: string, fileSizes: seq<int>) returns (r: Reply)
    requires |uri| >= 1 && NUL !in uri && |fileSizes| == |FILE_INFO_TABLE|
    ensures r == Route(uri, fileSizes)
  {
    var filepath: seq<char>;
    if uri[|uri| - 1] == '/' {
      filepath := Padded("/index.html", MAX_PATH_LEN);
    } else {
      filepath := Padded(Truncate(uri, MAX_PATH_LEN - 1), MAX_PATH_LEN);
    }
    assert filepath == Padded(FilePath(uri), MAX_PATH_LEN);
    CStrOfPadded(FilePath(uri), MAX_PATH_LEN);
    if !SplitFits(filepath, MAX_FILE_LEN) {
      return OutOfBounds;
    }
    var filename := new char[MAX_FILE_LEN](_ => NUL);
    var extension := new char[MAX_EXTENSION_LEN](_ => NUL);
    GetFilenameAndExtension(filepath, filename, extension);
    r := SendSplitFile(filename, extension, fileSizes);
  }

  /** The second half of the handler: content type, full name, file lookup. */
  method SendSplitFile(filename: array<char>, extension: array<char>, fileSizes: seq<int>)
    returns (r: Reply)
    requires NUL in filename[..] && NUL in extension[..]
    requires |fileSizes| == |FILE_INFO_TABLE|
    ensures r == ReplyFor(CStr(filename[..]), CStr(extension[..]), fileSizes)
  {
    var stemBuf, extBuf := filename[..], extension[..];
    var contentType := GetContentType(CStr(extBuf));
    if contentType.None? {
      return SendError500("file not supported");
    }
    var fullname := new char[MAX_PATH_LEN](_ => NUL);
    MakeFullFilename(fullname, stemBuf, extBuf);
    ghost var joined := Truncate(Join(CStr(stemBuf), CStr(extBuf)), MAX_PATH_LEN - 1);
    assert CStr(fullname[..]) == joined;
    var fileInfo := GetFileInfo(CStr(fullname[..]));
    assert fileInfo == FileIndexOf(joined);
    if fileInfo.None? {
      return SendError500("failed to send");
    }
    // The embedded file ends in a NUL that is not sent.
    r := SendFile(contentType.value, FILE_INFO_TABLE[fileInfo.value], fileSizes[fileInfo.value] - 1);
  }

  // ---------------------------------------------------------------------
  // What the handler serves
  // ---------------------------------------------------------------------

  /** A URI of the form dir/stem.ext that fits every buffer is answered from
      its last segment alone. */
  lemma RouteBySegment(dir: string, stem: string, ext: string, fileSizes: seq<int>)
    requires IsDirectory(dir) && NoSeparator(stem) && NoSeparator(ext) && NoDot(ext)
    requires ext != [] && NUL !in dir + stem + "." + ext
    requires |stem| < MAX_FILE_LEN && |ext| < MAX_EXTENSION_LEN
    requires |dir| + |stem| + 1 + |ext| < MAX_PATH_LEN
    requires |fileSizes| == |FILE_INFO_TABLE|
    ensures Route(dir + stem + "." + ext, fileSizes) == ReplyFor(stem, ext, fileSizes)
  {
    var uri := dir + stem + "." + ext;
    assert uri[|uri| - 1] == ext[|ext| - 1];
    assert FilePath(uri) == uri;
    var path := Padded(uri, MAX_PATH_LEN);
    CStrOfPadded(uri, MAX_PATH_LEN);
    assert CStr(path) == uri;
    ScanOfStemDotExtension(dir, stem, ext);
    assert ScanPath(CStr(path)) == Scan(|dir|, Some(|dir| + |stem|));
    assert SplitFits(path, MAX_FILE_LEN);
    SplitJoinRoundTrip(dir, stem, ext, MAX_FILE_LEN, MAX_EXTENSION_LEN, MAX_PATH_LEN);
    assert Stem(CStr(path), MAX_FILE_LEN) == stem;
    assert Extension(CStr(path), MAX_EXTENSION_LEN) == ext;
  }

  /** Stem, extension and MIME type of each embedded file. */
  const EMBEDDED_STEMS: seq<string> := ["index", "style", "script", "favicon"]
  const EMBEDDED_EXTENSIONS: seq<string> := ["html", "css", "js", "ico"]
  const EMBEDDED_MIMES: seq<string> := ["text/html", "text/css", "application/javascript", "image/x-icon"]

  /** The name of each embedded file splits into a table extension, which
      gives its MIME type, and joins back into the name, which finds it. */
  lemma EmbeddedFileReply(i: nat, fileSizes: seq<int>)
    requires i < |FILE_INFO_TABLE| && |fileSizes| == |FILE_INFO_TABLE|
    ensures FILE_INFO_TABLE[i] == EMBEDDED_STEMS[i] + "." + EMBEDDED_EXTENSIONS[i]
    ensures ReplyFor(EMBEDDED_STEMS[i], EMBEDDED_EXTENSIONS[i], fileSizes)
      == SendFile(EMBEDDED_MIMES[i], FILE_INFO_TABLE[i], fileSizes[i] - 1)
  {
    var stem, ext := EMBEDDED_STEMS[i], EMBEDDED_EXTENSIONS[i];
    ContentTypeIgnoresCase(ext, [1, 3, 2, 5][i]);
    assert Join(stem, ext) == FILE_INFO_TABLE[i];
    assert Truncate(FILE_INFO_TABLE[i], MAX_PATH_LEN - 1) == FILE_INFO_TABLE[i];
    FileIndexOfMeans(FILE_INFO_TABLE[i]);
  }

  /** The URI of an embedded file is answered from its stem and extension. */
  lemma RouteOfEmbeddedName(dir: string, i: nat, fileSizes: seq<int>)
    requires IsDirectory(dir) && NUL !in dir && i < |FILE_INFO_TABLE|
    requires |dir| + |FILE_INFO_TABLE[i]| < MAX_PATH_LEN && |fileSizes| == |FILE_INFO_TABLE|
    ensures Route(dir + FILE_INFO_TABLE[i], fileSizes)
      == ReplyFor(EMBEDDED_STEMS[i], EMBEDDED_EXTENSIONS[i], fileSizes)
  {
    if i == 0 {
      assert dir + "index.html" == dir + "index" + "." + "html";
      RouteBySegment(dir, "index", "html", fileSizes);
    } else if i == 1 {
      assert dir + "style.css" == dir + "style" + "." + "css";
      RouteBySegment(dir, "style", "css", fileSizes);
    } else if i == 2 {
      assert dir + "script.js" == dir + "script" + "." + "js";
      RouteBySegment(dir, "script", "js", fileSizes);
    } else {
      assert dir + "favicon.ico" == dir + "favicon" + "." + "ico";
      RouteBySegment(dir, "favicon", "ico", fileSizes);
    }
  }

  /** Each embedded file is served, under its own name and with its content
      type, from any directory that leaves the URI within the path buffer. */
  lemma ServesEmbeddedFile(dir: string, i: nat, fileSizes: seq<int>)
    requires IsDirectory(dir) && NUL !in dir && i < |FILE_INFO_TABLE|
    requires |dir| + |FILE_INFO_TABLE[i]| < MAX_PATH_LEN && |fileSizes| == |FILE_INFO_TABLE|
    ensures Route(dir + FILE_INFO_TABLE[i], fileSizes)
      == SendFile(EMBEDDED_MIMES[i], FILE_INFO_TABLE[i], fileSizes[i] - 1)
  {
    EmbeddedFileReply(i, fileSizes);
    RouteOfEmbeddedName(dir, i, fileSizes);
  }

  /** A URI ending in '/' is served the index page. */
  lemma TrailingSlashServesIndex(uri: string, fileSizes: seq<int>)
    requires |uri| >= 1 && uri[|uri| - 1] == '/' && |fileSizes| == |FILE_INFO_TABLE|
    ensures Route(uri, fileSizes) == SendFile("text/html", "index.html", fileSizes[0] - 1)
  {
    ServesEmbeddedFile("/", 0, fileSizes);
    IndexPath(uri);
    RouteSeesOnlyFilePath(uri, "/" + FILE_INFO_TABLE[0], fileSizes);
  }

  lemma IndexPath(uri: string)
    requires |uri| >= 1 && uri[|uri| - 1] == '/'
    ensures FilePath(uri) == FilePath("/" + FILE_INFO_TABLE[0])
  {
    assert "/" + FILE_INFO_TABLE[0] == "/index.html";
  }

  /** The handler looks at the URI only through the path it derives from it. */
  lemma RouteSeesOnlyFilePath(u: string, v: string, fileSizes: seq<int>)
    requires |u| >= 1 && |v| >= 1 && |fileSizes| == |FILE_INFO_TABLE|
    requires FilePath(u) == FilePath(v)
    ensures Route(u, fileSizes) == Route(v, fileSizes)
  {
  }

  /** Only the first MAX_PATH_LEN - 1 characters of a URI that does not end
      in '/' reach the router: two such URIs that agree on them get the same
      reply, whatever follows. */
  lemma LongUrisShareReply(u: string, v: string, fileSizes: seq<int>)
    requires |u| >= MAX_PATH_LEN - 1 && |v| >= MAX_PATH_LEN - 1
    requires u[|u| - 1] != '/' && v[|v| - 1] != '/'
    requires u[..MAX_PATH_LEN - 1] == v[..MAX_PATH_LEN - 1]
    requires |fileSizes| == |FILE_INFO_TABLE|
    ensures FilePath(u) == FilePath(v) == u[..MAX_PATH_LEN - 1]
    ensures Route(u, fileSizes) == Route(v, fileSizes)
  {
    RouteSeesOnlyFilePath(u, v, fileSizes);
  }

  /** A last segment without a dot has no extension and is refused as an
      unsupported file type, unless it starts so deep in the path buffer that
      the copy of MAX_FILE_LEN - 1 bytes would read past the buffer. */
  lemma PlainSegmentNotSupported(dir: string, seg: string, fileSizes: seq<int>)
    requires IsDirectory(dir) && NoSeparator(seg) && NoDot(seg) && seg != []
    requires NUL !in dir + seg && |dir| + |seg| < MAX_PATH_LEN
    requires |fileSizes| == |FILE_INFO_TABLE|
    ensures Route(dir + seg, fileSizes) ==
      if |dir| + MAX_FILE_LEN <= MAX_PATH_LEN + 1 then SendError500("file not supported")
      else OutOfBounds
  {
    var uri := dir + seg;
    assert uri[|uri| - 1] == seg[|seg| - 1];
    assert FilePath(uri) == uri;
    var path := Padded(uri, MAX_PATH_LEN);
    CStrOfPadded(uri, MAX_PATH_LEN);
    assert CStr(path) == uri;
    ScanOfPlainSegment(dir, seg);
    assert ScanPath(CStr(path)) == Scan(|dir|, None);
    assert SplitFits(path, MAX_FILE_LEN) <==> |dir| + MAX_FILE_LEN <= MAX_PATH_LEN + 1;
    assert Extension(CStr(path), MAX_EXTENSION_LEN) == [];
    ContentTypeOfMeans([]);
    assert ContentTypeOf([]) == None;
  }

  /** A stem of MAX_FILE_LEN characters or more does not fit the file-name
      buffer; "/" + 40 letters + ".html" is such a request. */
  lemma LongStemOverflows(fileSizes: seq<int>)
    requires |fileSizes| == |FILE_INFO_TABLE|
    ensures Route("/" + seq(40, _ => 'a') + ".html", fileSizes) == OutOfBounds
  {
    var stem := seq(40, _ => 'a');
    var uri := "/" + stem + ".html";
    assert uri == "/" + stem + "." + "html";
    assert uri[|uri| - 1] == 'l';
    assert FilePath(uri) == uri;
    assert NUL !in uri by {
      forall k | 0 <= k < |uri| ensures uri[k] != NUL {
        if 1 <= k < 41 { assert uri[k] == stem[k - 1]; }
      }
    }
    CStrOfPadded(uri, MAX_PATH_LEN);
    ScanOfStemDotExtension("/", stem, "html");
  }

  /** The extension ignores case but the file name does not: "/INDEX.HTML"
      has a content type and no file. */
  lemma FileLookupIsCaseSensitive(fileSizes: seq<int>)
    requires |fileSizes| == |FILE_INFO_TABLE|
    ensures Route("/INDEX.HTML", fileSizes) == SendError500("failed to send")
  {
    assert "/INDEX.HTML" == "/" + "INDEX" + "." + "HTML";
    RouteBySegment("/", "INDEX", "HTML", fileSizes);
    UpperCaseIndexReply(fileSizes);
  }

  lemma UpperCaseIndexReply(fileSizes: seq<int>)
    requires |fileSizes| == |FILE_INFO_TABLE|
    ensures ReplyFor("INDEX", "HTML", fileSizes) == SendError500("failed to send")
  {
    ContentTypeIgnoresCase("HTML", 1);
    assert Join("INDEX", "HTML") == "INDEX.HTML";
    FileIndexOfMeans("INDEX.HTML");
  }
}
