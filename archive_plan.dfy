/** The walk over an extracted archive in `handle_media` of bot.py: the
    encoder calls for all entries, the outputs they write, the list of
    archive members, and the corrected list that names only media
    outputs. */
module ArchivePlan {
  import opened Paths
  import opened Encoder
  import opened ArchiveEntries
  import opened Walks

  /** The encoder calls for a whole walk, in walk order. */
  function EntryCalls(walk: seq<string>, folder: string): seq<EncoderCall> {
    if |walk| == 0 then []
    else EntryCalls(walk[..|walk| - 1], folder) + EntryCall(walk[|walk| - 1], folder)
  }

  /** The output paths of the media entries of a walk. */
  function MediaOutputs(walk: seq<string>): set<string> {
    SelectSet(walk, IsMedia, EntryOutput)
  }

  /** A path is a media output exactly when some media entry maps to it. */
  lemma MediaOutputsMembers(walk: seq<string>, p: string)
    ensures p in MediaOutputs(walk) <==> exists i :: 0 <= i < |walk| && IsMedia(walk[i]) && EntryOutput(walk[i]) == p
  {
    SelectSetMembers(walk, IsMedia, EntryOutput, p);
  }

  /** Every media output lies in `compressed/`. */
  lemma MediaOutputsInCompressDir(walk: seq<string>)
    ensures forall p :: p in MediaOutputs(walk) ==> "compressed/" <= p
  {
    forall p | p in MediaOutputs(walk)
      ensures "compressed/" <= p
    {
      var i := SelectSetSource(walk, IsMedia, EntryOutput, p);
      EntryOutputInCompressDir(walk[i]);
    }
  }

  /** The plan writes exactly the outputs of the media entries. */
  lemma {:induction false} PlanOutputs(walk: seq<string>, folder: string)
    ensures Outputs(EntryCalls(walk, folder)) == MediaOutputs(walk)
  {
    if |walk| > 0 {
      var n := |walk|;
      var init := walk[..n - 1];
      var last := EntryCall(walk[n - 1], folder);
      assert EntryCalls(walk, folder) == EntryCalls(init, folder) + last;
      PlanOutputs(init, folder);
      OutputsConcat(EntryCalls(init, folder), last);
      if last != [] {
        assert last == [] + [last[0]];
        assert Outputs(last) == {EntryOutput(walk[n - 1])};
      } else {
        assert Outputs(last) == {};
      }
      assert MediaOutputs(walk) == MediaOutputs(init)
        + (if IsMedia(walk[n - 1]) then {EntryOutput(walk[n - 1])} else {});
    }
  }

  /** The output paths of all the files of a walk, in walk order. */
  function EntryOutputs(walk: seq<string>): seq<string> {
    MapAll(walk, EntryOutput)
  }

  /** Planning one more file of the walk appends that file's call and
      output path. */
  lemma PlanPrefix(walk: seq<string>, folder: string, i: nat)
    requires i < |walk|
    ensures EntryCalls(walk[..i + 1], folder) == EntryCalls(walk[..i], folder) + EntryCall(walk[i], folder)
    ensures EntryOutputs(walk[..i + 1]) == EntryOutputs(walk[..i]) + [EntryOutput(walk[i])]
    ensures MediaEntryOutputs(walk[..i + 1]) ==
      MediaEntryOutputs(walk[..i]) + (if IsMedia(walk[i]) then [EntryOutput(walk[i])] else [])
  {
    assert walk[..i + 1][..i] == walk[..i];
    Extend(walk, IsMedia, EntryOutput, i);
  }

  /** The walk loop of `handle_media`: for each extracted file, in walk
      order, encode it when it is a media file, and append its output path
      to the list whether or not it was encoded. */
  method PlanArchive(walk: seq<string>, folder: string) returns (calls: seq<EncoderCall>, compressed: seq<string>)
    ensures |compressed| == |walk|
    ensures forall i :: 0 <= i < |walk| ==> compressed[i] == EntryOutput(walk[i])
    ensures calls == EntryCalls(walk, folder)
  {
    calls, compressed := [], [];
    for i := 0 to |walk|
      invariant compressed == EntryOutputs(walk[..i])
      invariant calls == EntryCalls(walk[..i], folder)
    {
      var call, compressedPath := PlanEntry(walk[i], folder);
      PlanPrefix(walk, folder, i);
      calls := calls + call;
      compressed := compressed + [compressedPath];
    }
    assert walk[..|walk|] == walk;
    MapAllSpec(walk, EntryOutput);
  }

  /** The archive write loop: add each listed file under its basename; a
      file that does not exist makes `ZipFile.write` raise, which ends the
      loop (and the handler). */
  method WriteArchive(present: set<string>, compressed: seq<string>) returns (members: seq<string>, ok: bool)
    ensures ok <==> forall i :: 0 <= i < |compressed| ==> compressed[i] in present
    ensures ok ==> |members| == |compressed|
    ensures ok ==> forall i :: 0 <= i < |compressed| ==> members[i] == Basename(compressed[i])
  {
    members := [];
    var i := 0;
    while i < |compressed|
      invariant 0 <= i <= |compressed|
      invariant forall j :: 0 <= j < i ==> compressed[j] in present
      invariant |members| == i
      invariant forall j :: 0 <= j < i ==> members[j] == Basename(compressed[j])
    {
      if compressed[i] !in present {
        return members, false;
      }
      members := members + [Basename(compressed[i])];
      i := i + 1;
    }
    ok := true;
  }

  /** The archive member for an entry is named `compressed_` + its basename,
      one member per extracted file, in walk order. */
  lemma ArchiveMemberNames(walk: seq<string>)
    ensures forall i :: 0 <= i < |walk| ==> Basename(EntryOutput(walk[i])) == "compressed_" + Basename(walk[i])
  {
    forall i | 0 <= i < |walk|
      ensures Basename(EntryOutput(walk[i])) == "compressed_" + Basename(walk[i])
    {
      assert EntryOutput(walk[i]) == "compressed" + "/" + ("compressed_" + Basename(walk[i]));
      BasenameOfJoined("compressed", "compressed_" + Basename(walk[i]));
    }
  }

  /** Corrected: the archive lists only the outputs of the media entries,
      in walk order. */
  function MediaEntryOutputs(walk: seq<string>): seq<string> {
    Select(walk, IsMedia, EntryOutput)
  }

  /** Each listed member is one of the files the plan wrote. */
  lemma MediaEntryOutputsWritten(walk: seq<string>)
    ensures forall p :: p in MediaEntryOutputs(walk) ==> p in MediaOutputs(walk)
  {
    SelectElements(walk, IsMedia, EntryOutput);
  }

  /** Corrected walk loop: only an encoded file's output path is added to
      the archive list. */
  method PlanArchiveMediaOnly(walk: seq<string>, folder: string) returns (calls: seq<EncoderCall>, members: seq<string>)
    ensures calls == EntryCalls(walk, folder)
    ensures members == MediaEntryOutputs(walk)
  {
    calls, members := [], [];
    for i := 0 to |walk|
      invariant members == MediaEntryOutputs(walk[..i])
      invariant calls == EntryCalls(walk[..i], folder)
    {
      var call, compressedPath := PlanEntry(walk[i], folder);
      PlanPrefix(walk, folder, i);
      calls := calls + call;
      if call != [] {
        members := members + [compressedPath];
      }
    }
    assert walk[..|walk|] == walk;
  }

}
