/** The archive format: file contents one after the other, then a footer of fixed size that says
    where each file is. */
module ArchiveFormat {
  import opened Bytes
  import opened Common
  import opened FooterBytes
  import opened FooterText

  /** A file of an archive: its name and its content. */
  type File = (string, seq<byte>)

  function Body(files: seq<File>): seq<byte> {
    if files == [] then [] else Body(Init(files)) + Last(files).1
  }

  /** The footer of the files: each starts where the files before it end. */
  function Layout(files: seq<File>): Footer {
    if files == [] then map[]
    else Layout(Init(files))[Last(files).0 := FileInfo(|Body(Init(files))|, |Last(files).1|)]
  }

  predicate DistinctNames(files: seq<File>) {
    files == [] || (DistinctNames(Init(files)) && Last(files).0 !in Layout(Init(files)))
  }

  /** The files after more data for the last one. */
  function Grow(files: seq<File>, data: seq<byte>): seq<File>
    requires files != []
  {
    Init(files) + [(Last(files).0, Last(files).1 + data)]
  }

  /** `raw` is the encoded form of the footer, with the entries in some order. */
  ghost predicate IsFooter(raw: seq<byte>, f: Footer) {
    exists es :: Lists(es, f) && |TextBytes(es)| <= PAD_SIZE && raw == EncodeFooter(es)
  }

  /** `payload` is an archive of `files`: their contents, then the footer that locates them. */
  ghost predicate IsArchive(payload: seq<byte>, files: seq<File>) {
    && DistinctNames(files)
    && |Body(files)| <= INT64_MAX
    && Body(files) <= payload
    && IsFooter(payload[|Body(files)|..], Layout(files))
  }

  /** The names in the footer are those of the files. */
  lemma {:induction false} LayoutNames(files: seq<File>, name: string)
    ensures name in Layout(files) <==> exists i :: 0 <= i < |files| && files[i].0 == name
  {
    if files != [] {
      LayoutNames(Init(files), name);
      assert forall i :: 0 <= i < |files| - 1 ==> files[i] == Init(files)[i];
    }
  }

  /** Where a file sits in the footer and in the body. */
  lemma {:induction false} FileInArchive(files: seq<File>, i: nat)
    requires i < |files| && DistinctNames(files)
    ensures |Body(files[..i])| + |files[i].1| <= |Body(files)|
    ensures files[i].0 in Layout(files)
    ensures Layout(files)[files[i].0] == FileInfo(|Body(files[..i])|, |files[i].1|)
    ensures Body(files)[|Body(files[..i])|..|Body(files[..i])| + |files[i].1|] == files[i].1
  {
    if i == |files| - 1 {
      assert files[..i] == Init(files);
    } else {
      var init := Init(files);
      assert init[..i] == files[..i] && init[i] == files[i];
      FileInArchive(init, i);
      assert Body(files)[..|Body(init)|] == Body(init);
    }
  }

  /** The entries tile the body in creation order: no gap, no overlap, nothing left over. */
  lemma EntriesTile(files: seq<File>, i: nat)
    requires i < |files| && DistinctNames(files)
    ensures files[i].0 in Layout(files)
    ensures i + 1 < |files| ==> files[i + 1].0 in Layout(files)
    ensures var info := Layout(files)[files[i].0];
      && (i == 0 ==> info.start == 0)
      && 0 <= info.size
      && info.start + info.size
         == (if i + 1 < |files| then Layout(files)[files[i + 1].0].start else |Body(files)|)
  {
    FileInArchive(files, i);
    if i + 1 < |files| {
      FileInArchive(files, i + 1);
      assert Init(files[..i + 1]) == files[..i];
    } else {
      assert Init(files) == files[..i];
    }
  }

  /** Later files leave the entry and the bytes of every earlier one as they are. */
  lemma EntriesStable(files: seq<File>, more: seq<File>, i: nat)
    requires i < |files| && files <= more && DistinctNames(files) && DistinctNames(more)
    ensures files[i].0 in Layout(files) && files[i].0 in Layout(more)
    ensures Layout(files)[files[i].0] == Layout(more)[files[i].0]
  {
    FileInArchive(files, i);
    FileInArchive(more, i);
    assert files[..i] == more[..i];
  }

  /** So does writing more to the last file. */
  lemma EntriesStableWhileWriting(files: seq<File>, data: seq<byte>, i: nat)
    requires i + 1 < |files| && DistinctNames(files) && DistinctNames(Grow(files, data))
    ensures files[i].0 in Layout(files) && files[i].0 in Layout(Grow(files, data))
    ensures Layout(files)[files[i].0] == Layout(Grow(files, data))[files[i].0]
  {
    var grown := Grow(files, data);
    assert grown[i] == files[i] && grown[..i] == files[..i];
    FileInArchive(files, i);
    FileInArchive(grown, i);
  }

  /** Sizes and offsets stay within the body. */
  lemma LayoutBounds(files: seq<File>, name: string)
    requires DistinctNames(files) && name in Layout(files)
    ensures var info := Layout(files)[name];
      0 <= info.start && 0 <= info.size && info.start + info.size <= |Body(files)|
  {
    LayoutNames(files, name);
    var i :| 0 <= i < |files| && files[i].0 == name;
    FileInArchive(files, i);
  }

  /** Body and footer together are an archive of the files. */
  lemma BodyAndFooter(base: seq<byte>, files: seq<File>, taken: seq<byte>)
    requires DistinctNames(files)
    requires base + Body(files) <= taken
    requires IsFooter(taken[|base + Body(files)|..], Layout(files))
    ensures base <= taken && (|Body(files)| <= INT64_MAX ==> IsArchive(taken[|base|..], files))
  {
    assert taken[|base|..][|Body(files)|..] == taken[|base + Body(files)|..];
  }

  /** The content an archive has under a name. */
  function ContentOf(files: seq<File>, name: string): Option<seq<byte>> {
    if files == [] then None
    else if Last(files).0 == name then Some(Last(files).1)
    else ContentOf(Init(files), name)
  }

  /** The content of a name is where the footer says it is. */
  lemma {:induction false} ContentLocated(files: seq<File>, name: string)
    requires DistinctNames(files)
    ensures ContentOf(files, name).Some? <==> name in Layout(files)
    ensures name in Layout(files) ==>
      var info := Layout(files)[name];
      && 0 <= info.start && 0 <= info.size && info.start + info.size <= |Body(files)|
      && ContentOf(files, name) == Some(Body(files)[info.start..info.start + info.size])
  {
    if files != [] {
      var init := Init(files);
      ContentLocated(init, name);
      if Last(files).0 == name {
        assert Body(files)[|Body(init)|..|Body(init)| + |Last(files).1|] == Last(files).1;
      } else if name in Layout(init) {
        var info := Layout(init)[name];
        assert Body(files)[info.start..info.start + info.size] == Body(init)[info.start..info.start + info.size];
      }
    }
  }

  /** Reading an archive's last bytes gives back its layout. */
  lemma ArchiveFooter(payload: seq<byte>, files: seq<File>)
    requires IsArchive(payload, files)
    ensures PAD_SIZE <= |payload|
    ensures DecodeFooter(payload[|payload| - PAD_SIZE..|payload|]) == Some(Layout(files))
  {
    var f := Layout(files);
    var raw := payload[|Body(files)|..];
    assert |raw| == PAD_SIZE && raw == payload[|payload| - PAD_SIZE..|payload|];
    var es: seq<Entry> :| Lists(es, f) && |TextBytes(es)| <= PAD_SIZE && raw == EncodeFooter(es);
    forall i | 0 <= i < |es|
      ensures IsInt64(es[i].1.start) && IsInt64(es[i].1.size)
    {
      ListedEntry(es, f, i);
      LayoutBounds(files, es[i].0);
    }
    FooterRoundTrip(es, f);
  }

  lemma PrefixSlice(a: seq<byte>, b: seq<byte>, lo: nat, hi: nat)
    requires a <= b && lo <= hi <= |a|
    ensures a[lo..hi] == b[lo..hi]
  {
  }

  /** The content of a name is found in the archive where the layout says it is. */
  lemma ArchiveLocates(body: seq<byte>, payload: seq<byte>, files: seq<File>, name: string)
    requires DistinctNames(files) && body == Body(files) && body <= payload
    ensures ContentOf(files, name).Some? <==> name in Layout(files)
    ensures name in Layout(files) ==>
      var info := Layout(files)[name];
      && 0 <= info.start && 0 <= info.size && info.start + info.size <= |payload|
      && ContentOf(files, name) == Some(payload[info.start..info.start + info.size])
  {
    ContentLocated(files, name);
    if name in Layout(files) {
      var info := Layout(files)[name];
      PrefixSlice(body, payload, info.start, info.start + info.size);
    }
  }
}
