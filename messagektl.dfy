/** The file-to-message transform of custom/filektl/messagektl.js: a file
    path yields a file name, an optional `tag_` label and an optional
    `island_` override, and one outgoing message carrying the file's
    base64 data is added to the container, marked done for the route. */
module MessageKtl {
  import opened Wrappers
  import opened Text

  const DefaultUploadPath: string := "uploads"
  const TagPrefix: string := "tag_"
  const IslandPrefix: string := "island_"

  /** The route's configuration (`messagektl`). */
  datatype KtlConfig = KtlConfig(id: string, org: string, kwlIsland: Option<string>, uploadPath: Option<string>)

  /** `metadata`: `{}` or `{tag}`. */
  datatype Metadata = Metadata(tag: Option<string>)

  datatype Content = Content(
    filename: string,
    data: string,
    id: string,
    org: string,
    encoding: string,
    aiappid: Option<string>,
    cmspath: string,
    comment: string,
    metadata: Metadata)

  datatype Message = Message(content: Content, routesDone: seq<string>)

  /** The outgoing queue the route adds to. */
  class MessageContainer {
    var messages: seq<Message>

    constructor()
      ensures messages == []
    {
      messages := [];
    }

    method Add(m: Message)
      modifies this
      ensures messages == old(messages) + [m]
    {
      messages := messages + [m];
    }
  }

  /** The path without its last `.`-separated segment, then its base name. */
  function FileName(filepath: string): string {
    var splits := Split(filepath, '.');
    Basename(Join(splits[..|splits| - 1], "."))
  }

  /** A path without `.` has the empty file name; otherwise the file name is
      the base name of the text before the last `.`. */
  lemma FileNameSpec(filepath: string)
    ensures '.' !in filepath ==> FileName(filepath) == ""
    ensures '.' in filepath ==>
      exists k :: 0 <= k < |filepath| && filepath[k] == '.' && '.' !in filepath[k + 1..]
                  && FileName(filepath) == Basename(filepath[..k])
  {
    BeforeLastField(filepath, '.');
    var splits := Split(filepath, '.');
    var before := Join(splits[..|splits| - 1], ".");
    if '.' in filepath {
      var k := |before|;
      assert filepath[..k] == before;
    }
  }

  /** The text after `prefix` in the last field that starts with it. */
  function LastSuffix(fields: seq<string>, prefix: string): Option<string>
    decreases |fields|
  {
    if fields == [] then None
    else if StartsWith(fields[|fields| - 1], prefix) then Some(fields[|fields| - 1][|prefix|..])
    else LastSuffix(fields[..|fields| - 1], prefix)
  }

  /** No field starting with `prefix` gives None; otherwise the result is the
      rest of such a field, and no later field starts with `prefix`. */
  lemma {:induction false} LastSuffixSpec(fields: seq<string>, prefix: string)
    ensures LastSuffix(fields, prefix).None? <==> forall i :: 0 <= i < |fields| ==> !StartsWith(fields[i], prefix)
    ensures LastSuffix(fields, prefix).Some? ==>
      exists i :: 0 <= i < |fields| && fields[i] == prefix + LastSuffix(fields, prefix).value
                  && forall j :: i < j < |fields| ==> !StartsWith(fields[j], prefix)
    decreases |fields|
  {
    if fields != [] {
      var init, last := fields[..|fields| - 1], fields[|fields| - 1];
      LastSuffixSpec(init, prefix);
      if StartsWith(last, prefix) {
        assert last == prefix + last[|prefix|..];
      } else {
        if LastSuffix(init, prefix).Some? {
          var i :| 0 <= i < |init| && init[i] == prefix + LastSuffix(init, prefix).value
                   && forall j :: i < j < |init| ==> !StartsWith(init[j], prefix);
          assert fields[i] == init[i];
        } else {
          assert forall i :: 0 <= i < |fields| - 1 ==> fields[i] == init[i];
        }
      }
    }
  }

  /** The converse direction: the last field starting with `prefix`
      supplies the result. */
  lemma {:induction false} LastSuffixAt(fields: seq<string>, prefix: string, i: nat)
    requires i < |fields| && StartsWith(fields[i], prefix)
    requires forall j :: i < j < |fields| ==> !StartsWith(fields[j], prefix)
    ensures LastSuffix(fields, prefix) == Some(fields[i][|prefix|..])
    decreases |fields|
  {
    if i < |fields| - 1 {
      var init := fields[..|fields| - 1];
      assert init[i] == fields[i];
      assert forall j :: i < j < |init| ==> init[j] == fields[j];
      LastSuffixAt(init, prefix, i);
    }
  }

  /** The loop over the path's `.`-separated fields: each field starting
      with `tag_` or `island_` overwrites the tag or the island override. */
  method ScanFields(fields: seq<string>) returns (tag: Option<string>, island: Option<string>)
    ensures tag == LastSuffix(fields, TagPrefix)
    ensures island == LastSuffix(fields, IslandPrefix)
  {
    tag, island := None, None;
    for i := 0 to |fields|
      invariant tag == LastSuffix(fields[..i], TagPrefix)
      invariant island == LastSuffix(fields[..i], IslandPrefix)
    {
      assert fields[..i + 1][..i] == fields[..i];
      if StartsWith(fields[i], TagPrefix) {
        tag := Some(fields[i][|TagPrefix|..]);
      }
      if StartsWith(fields[i], IslandPrefix) {
        island := Some(fields[i][|IslandPrefix|..]);
      }
    }
    assert fields[..|fields|] == fields;
  }

  /** The outgoing content for a file path, given the base64 text of the
      file's knowledge. */
  function ContentOf(filepath: string, ktl: KtlConfig, base64Data: string): Content {
    var fields := Split(filepath, '.');
    var island := LastSuffix(fields, IslandPrefix);
    var filename := FileName(filepath);
    Content(
      filename,
      base64Data,
      ktl.id,
      ktl.org,
      "base64",
      if island.Some? && island.value != "" then island else ktl.kwlIsland,
      if ktl.uploadPath.Some? && ktl.uploadPath.value != "" then ktl.uploadPath.value else DefaultUploadPath,
      "File KTL from " + filename,
      Metadata(LastSuffix(fields, TagPrefix)))
  }

  /** What the content promises in terms of the path's `.`-separated
      fields: the tag is absent exactly when no field starts with `tag_`,
      and otherwise comes from the last such field; the application id is
      the configured island when no field starts with `island_`, and
      otherwise either that or a non-empty override from the last such
      field; the upload path is the configured one when that is non-empty and
      `uploads` otherwise. */
  lemma ContentOfSpec(filepath: string, ktl: KtlConfig, base64Data: string, fields: seq<string>)
    requires fields == Split(filepath, '.')
    ensures ContentOf(filepath, ktl, base64Data).filename == FileName(filepath)
    ensures ContentOf(filepath, ktl, base64Data).encoding == "base64"
    ensures ContentOf(filepath, ktl, base64Data).comment == "File KTL from " + FileName(filepath)
    ensures ContentOf(filepath, ktl, base64Data).metadata.tag.None?
        <==> forall i :: 0 <= i < |fields| ==> !StartsWith(fields[i], TagPrefix)
    ensures ContentOf(filepath, ktl, base64Data).metadata.tag.Some? ==>
      exists i :: 0 <= i < |fields| && fields[i] == TagPrefix + ContentOf(filepath, ktl, base64Data).metadata.tag.value
                  && forall j :: i < j < |fields| ==> !StartsWith(fields[j], TagPrefix)
    ensures (forall i :: 0 <= i < |fields| ==> !StartsWith(fields[i], IslandPrefix)) ==>
      ContentOf(filepath, ktl, base64Data).aiappid == ktl.kwlIsland
    ensures ContentOf(filepath, ktl, base64Data).aiappid != ktl.kwlIsland ==>
      var id := ContentOf(filepath, ktl, base64Data).aiappid;
      id.Some? && id.value != ""
      && exists i :: 0 <= i < |fields| && fields[i] == IslandPrefix + id.value
                     && forall j :: i < j < |fields| ==> !StartsWith(fields[j], IslandPrefix)
    ensures ktl.uploadPath.Some? && ktl.uploadPath.value != "" ==>
      ContentOf(filepath, ktl, base64Data).cmspath == ktl.uploadPath.value
    ensures ktl.uploadPath.None? || ktl.uploadPath.value == "" ==>
      ContentOf(filepath, ktl, base64Data).cmspath == DefaultUploadPath
  {
    LastSuffixSpec(fields, TagPrefix);
    LastSuffixSpec(fields, IslandPrefix);
  }

  /** The last field starting with `island_` decides the application id:
      its non-empty rest overrides the configured island, and a bare
      `island_` leaves the configured one. */
  lemma ContentOfIsland(filepath: string, ktl: KtlConfig, base64Data: string, fields: seq<string>)
    requires fields == Split(filepath, '.')
    ensures forall i :: 0 <= i < |fields| && StartsWith(fields[i], IslandPrefix) && |fields[i]| > |IslandPrefix|
                        && (forall j :: i < j < |fields| ==> !StartsWith(fields[j], IslandPrefix)) ==>
      ContentOf(filepath, ktl, base64Data).aiappid == Some(fields[i][|IslandPrefix|..])
    ensures forall i :: 0 <= i < |fields| && fields[i] == IslandPrefix
                        && (forall j :: i < j < |fields| ==> !StartsWith(fields[j], IslandPrefix)) ==>
      ContentOf(filepath, ktl, base64Data).aiappid == ktl.kwlIsland
  {
    forall i | 0 <= i < |fields| && StartsWith(fields[i], IslandPrefix)
               && (forall j :: i < j < |fields| ==> !StartsWith(fields[j], IslandPrefix))
      ensures LastSuffix(fields, IslandPrefix) == Some(fields[i][|IslandPrefix|..])
    {
      LastSuffixAt(fields, IslandPrefix, i);
    }
  }

  /** `start`: build the content, mark the new message done for this route
      and add it, the only message added, to the container. */
  method Start(routeName: string, ktl: KtlConfig, container: MessageContainer, filepath: string, base64Data: string)
    modifies container
    ensures container.messages == old(container.messages) + [Message(ContentOf(filepath, ktl, base64Data), [routeName])]
  {
    var filepathSplits := Split(filepath, '.');
    var filename := FileName(filepath);
    var tag, overrideIsland := ScanFields(filepathSplits);
    var aiappid := if overrideIsland.Some? && overrideIsland.value != "" then overrideIsland else ktl.kwlIsland;
    var cmspath := if ktl.uploadPath.Some? && ktl.uploadPath.value != "" then ktl.uploadPath.value else DefaultUploadPath;
    var content := Content(filename, base64Data, ktl.id, ktl.org, "base64", aiappid, cmspath,
                           "File KTL from " + filename, Metadata(tag));
    assert content == ContentOf(filepath, ktl, base64Data);
    var messageOut := Message(content, []);
    messageOut := messageOut.(routesDone := messageOut.routesDone + [routeName]);
    assert messageOut.routesDone == [routeName];
    container.Add(messageOut);
  }
}
