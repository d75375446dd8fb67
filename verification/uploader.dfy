/**
 * The argument and destination checks FileUploader.uploadInternal makes
 * before any thread starts, as a function of the two argument strings, the
 * local filesystem and the remote store's entry lookup.
 */
module Uploader {
  import opened Options
  import opened Walk

  /** DirectoryEntryType of the remote store. */
  datatype EntryType = FileEntry | DirectoryEntry

  /**
   * What client.getDirectoryEntry gives for a path: an entry of some type,
   * or an IOException (taken to mean that the destination does not exist).
   */
  datatype Lookup = Found(kind: EntryType) | LookupFailed

  /** The lookup found an entry that is not a directory. */
  predicate IsRemoteFile(l: Lookup)
  {
    l.Found? && l.kind == FileEntry
  }

  /**
   * How uploadInternal ends: an IllegalArgumentException with its message,
   * an empty UploadResult, or the upload of `root` from the trimmed source
   * path to the trimmed destination.
   */
  datatype UploadStart =
    | IllegalArgument(msg: string)
    | EmptyResult
    | Proceed(root: Entry, source: string, destination: string)

  /** The characters String.trim removes: code points up to U+0020. */
  predicate IsSpace(c: char)
  {
    c <= ' '
  }

  /** A string made of such characters only. */
  predicate Blank(s: string)
  {
    forall i :: 0 <= i < |s| ==> IsSpace(s[i])
  }

  /** The string without its leading spaces. */
  function TrimStart(s: string): (r: string)
    ensures |r| <= |s| && r == s[|s| - |r|..]
    ensures r != [] ==> !IsSpace(r[0])
    ensures forall i :: 0 <= i < |s| - |r| ==> IsSpace(s[i])
  {
    if s != [] && IsSpace(s[0]) then TrimStart(s[1..]) else s
  }

  /** The string without its trailing spaces. */
  function TrimEnd(s: string): (r: string)
    ensures |r| <= |s| && r == s[..|r|]
    ensures r != [] ==> !IsSpace(r[|r| - 1])
    ensures forall i :: |r| <= i < |s| ==> IsSpace(s[i])
  {
    if s != [] && IsSpace(s[|s| - 1]) then TrimEnd(s[..|s| - 1]) else s
  }

  /** String.trim. */
  function Trim(s: string): (r: string)
  {
    TrimEnd(TrimStart(s))
  }

  /** A string trims to the empty string exactly when it is blank. */
  lemma TrimEmptyIffBlank(s: string)
    ensures Trim(s) == [] <==> Blank(s)
  {
    var t := TrimStart(s);
    var k := |s| - |t|;
    if Trim(s) == [] {
      assert Blank(t);
      forall i | k <= i < |s| ensures IsSpace(s[i]) {
        assert s[i] == s[k..][i - k] == t[i - k];
      }
    }
  }

  /** Trimming a trimmed string changes nothing. */
  lemma TrimIdempotent(s: string)
    ensures Trim(Trim(s)) == Trim(s)
  {
    var r := Trim(s);
    if r != [] {
      assert r[0] == TrimStart(s)[0];
      assert TrimStart(r) == r;
    }
  }

  /** FileUploader.isDirectory: `listFiles()` is not null. */
  predicate IsListable(e: Entry)
  {
    ListFiles(e).Some?
  }

  const DestinationIsFile: string := "Destination path points to a file. Please provide a directory"

  /**
   * verifyDestination: rejects a destination that exists on the store as a
   * non-directory; otherwise answers true, also when the lookup failed.
   */
  function VerifyDestination(dst: string, lookup: string -> Lookup): (r: Result<bool>)
    ensures r.Err? <==> IsRemoteFile(lookup(dst))
    ensures r.Err? ==> r.msg == DestinationIsFile
    ensures r.Ok? ==> r.value
  {
    var d := lookup(dst);
    if d.Found? && d.kind != DirectoryEntry then Err(DestinationIsFile) else Ok(true)
  }

  /**
   * uploadInternal up to the call of upload(File, String): the null checks,
   * the emptiness checks after trimming, the existence check, and the
   * destination check for a source that cannot be listed as a directory.
   * `fs` resolves a local path (`None`: File.exists() is false); `lookup`
   * is client.getDirectoryEntry.
   */
  function UploadInternal(source: Option<string>, destination: Option<string>,
                          fs: string -> Option<Entry>, lookup: string -> Lookup): (r: UploadStart)
    ensures r == IllegalArgument("source is null") <==> source.None?
    ensures r == IllegalArgument("destination is null") <==> source.Some? && destination.None?
    ensures r == IllegalArgument("source is empty") <==>
      source.Some? && destination.Some? && Blank(source.value)
    ensures r == IllegalArgument("destination is empty") <==>
      source.Some? && destination.Some? && !Blank(source.value) && Blank(destination.value)
    ensures r == IllegalArgument("Source doesn't exist") <==>
      source.Some? && destination.Some? && !Blank(source.value) && !Blank(destination.value) &&
      fs(Trim(source.value)).None?
    ensures r == IllegalArgument(DestinationIsFile) <==>
      source.Some? && destination.Some? && !Blank(source.value) && !Blank(destination.value) &&
      fs(Trim(source.value)).Some? && !IsListable(fs(Trim(source.value)).value) &&
      IsRemoteFile(lookup(Trim(destination.value)))
    ensures r.Proceed? <==>
      source.Some? && destination.Some? && !Blank(source.value) && !Blank(destination.value) &&
      fs(Trim(source.value)).Some? &&
      (IsListable(fs(Trim(source.value)).value) || !IsRemoteFile(lookup(Trim(destination.value))))
    ensures r.Proceed? ==>
      r.source == Trim(source.value) && r.destination == Trim(destination.value) &&
      r.source != [] && r.destination != [] && fs(r.source) == Some(r.root)
    ensures r != EmptyResult
  {
    if source.None? then IllegalArgument("source is null")
    else if destination.None? then IllegalArgument("destination is null")
    else
      var src, dst := Trim(source.value), Trim(destination.value);
      TrimEmptyIffBlank(source.value);
      TrimEmptyIffBlank(destination.value);
      if src == [] then IllegalArgument("source is empty")
      else if dst == [] then IllegalArgument("destination is empty")
      else if fs(src).None? then IllegalArgument("Source doesn't exist")
      else
        var root := fs(src).value;
        if !IsListable(root) then
          match VerifyDestination(dst, lookup)
          case Err(msg) => IllegalArgument(msg)
          case Ok(ok) => if !ok then EmptyResult else Proceed(root, src, dst)
        else Proceed(root, src, dst)
  }
}
