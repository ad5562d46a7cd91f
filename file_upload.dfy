/**
 * The attachment picker: removing a picked file, merging dropped files into the
 * list, the upload guard and the attachment list an upload writes, and the
 * preview test on a file's MIME type.
 */
module FileUpload {
  import opened Wrappers
  import opened Tasks
  import Seqs

  /** A browser `File`: its name, MIME type and size in bytes. */
  datatype File = File(name: string, mimeType: string, size: nat)

  /**
   * `removeFile(index)`: copy the list, then splice one element out of the copy.
   * An index past the end leaves the list as it was.
   */
  method RemoveFile(existingFiles: seq<File>, index: nat) returns (newFiles: seq<File>)
    ensures index < |existingFiles| ==> |newFiles| == |existingFiles| - 1
    ensures index < |existingFiles| ==> newFiles == existingFiles[..index] + existingFiles[index + 1..]
    ensures index >= |existingFiles| ==> newFiles == existingFiles
  {
    var n := |existingFiles|;
    if index >= n {
      return existingFiles;
    }
    var a := new File[n](i requires 0 <= i < n => existingFiles[i]);
    var k := index;
    while k < n - 1
      invariant index <= k <= n - 1
      invariant a[..index] == existingFiles[..index]
      invariant forall j | index <= j < k :: a[j] == existingFiles[j + 1]
      invariant forall j | k <= j < n :: a[j] == existingFiles[j]
    {
      a[k] := a[k + 1];
      k := k + 1;
    }
    newFiles := a[..n - 1];
    assert forall j | 0 <= j < n - 1 :: newFiles[j] == (existingFiles[..index] + existingFiles[index + 1..])[j];
  }

  /** An entry of a written attachment list: a picked file as it is, or a stored attachment record. */
  datatype Entry = Local(file: File) | Remote(attachment: Attachment)

  /** One upload: where the file goes, the task it belongs to, and the attachment list written to it. */
  datatype Upload = Upload(storagePath: string, taskId: string, attachments: seq<Entry>)

  function AsLocal(f: File): Entry
  {
    Local(f)
  }

  /**
   * The upload mutation for one file. Nothing happens without a task id;
   * otherwise the file goes to the user's folder for the task, and the task's
   * attachments become the picked files followed by a record of this file,
   * with no upload time. `url` is the download address the store returns.
   */
  function UploadFile(uid: string, taskId: string, existingFiles: seq<File>, file: File, url: string): (r: Option<Upload>)
    ensures r.None? <==> taskId == ""
    ensures r.Some? ==> r.value.storagePath == "users/" + uid + "/tasks/" + taskId + "/" + file.name
    ensures r.Some? ==> r.value.taskId == taskId
    ensures r.Some? ==> |r.value.attachments| == |existingFiles| + 1
    ensures r.Some? ==> forall i | 0 <= i < |existingFiles| :: r.value.attachments[i] == Local(existingFiles[i])
    ensures r.Some? ==> r.value.attachments[|existingFiles|] == Remote(Attachment(file.name, url, None))
  {
    if taskId == "" then None
    else Some(Upload("users/" + uid + "/tasks/" + taskId + "/" + file.name, taskId,
      Seqs.Map(existingFiles, AsLocal) + [Remote(Attachment(file.name, url, None))]))
  }

  /**
   * `onDrop`: the picked list becomes the old one followed by the dropped files,
   * in order, and one upload is started per dropped file. `downloadUrl` stands
   * for the address the store hands back for each file.
   */
  method OnDrop(uid: string, taskId: string, existingFiles: seq<File>, acceptedFiles: seq<File>, downloadUrl: File -> string)
    returns (selected: seq<File>, uploads: seq<Option<Upload>>)
    ensures selected == existingFiles + acceptedFiles
    ensures |uploads| == |acceptedFiles|
    ensures forall i | 0 <= i < |acceptedFiles| ::
      uploads[i] == UploadFile(uid, taskId, existingFiles, acceptedFiles[i], downloadUrl(acceptedFiles[i]))
  {
    selected := existingFiles + acceptedFiles;
    uploads := [];
    for i := 0 to |acceptedFiles|
      invariant |uploads| == i
      invariant forall k | 0 <= k < i ::
        uploads[k] == UploadFile(uid, taskId, existingFiles, acceptedFiles[k], downloadUrl(acceptedFiles[k]))
    {
      var file := acceptedFiles[i];
      uploads := uploads + [UploadFile(uid, taskId, existingFiles, file, downloadUrl(file))];
    }
  }

  function IsRemote(e: Entry): bool
  {
    e.Remote?
  }

  /**
   * Each upload started by one drop writes the picked list as it was before the
   * drop plus its own record only: the records of the other dropped files are
   * not in it, and the picked files stay local entries.
   */
  lemma UploadCarriesOnlyItsOwnFile(uid: string, taskId: string, existingFiles: seq<File>, file: File, url: string)
    requires taskId != ""
    ensures var u := UploadFile(uid, taskId, existingFiles, file, url).value;
      Seqs.Select(u.attachments, IsRemote) == [Remote(Attachment(file.name, url, None))]
  {
    var u := UploadFile(uid, taskId, existingFiles, file, url).value;
    var n := |existingFiles|;
    assert u.attachments == u.attachments[..n] + [u.attachments[n]];
    Seqs.SelectConcat(u.attachments[..n], [u.attachments[n]], IsRemote);
    Seqs.SelectNone(u.attachments[..n], IsRemote);
  }

  /** A drop on a form without a task id picks the files but uploads nothing. */
  lemma DropWithoutTask(uid: string, existingFiles: seq<File>, acceptedFiles: seq<File>, downloadUrl: File -> string, uploads: seq<Option<Upload>>)
    requires |uploads| == |acceptedFiles|
    requires forall i | 0 <= i < |acceptedFiles| ::
      uploads[i] == UploadFile(uid, "", existingFiles, acceptedFiles[i], downloadUrl(acceptedFiles[i]))
    ensures forall u | u in uploads :: u.None?
  {
  }

  function StartsWith(s: string, prefix: string): bool
  {
    |prefix| <= |s| && s[..|prefix|] == prefix
  }

  /** `isImageFile`: the file gets a preview iff its type is "image/" followed by anything, or exactly "application/pdf". */
  function IsImageFile(file: File): (r: bool)
    ensures r <==> (exists rest :: file.mimeType == "image/" + rest) || file.mimeType == "application/pdf"
  {
    var t := file.mimeType;
    assert forall rest | t == "image/" + rest :: StartsWith(t, "image/") by {
      forall rest | t == "image/" + rest ensures StartsWith(t, "image/") {
        assert t[..6] == "image/";
      }
    }
    if StartsWith(t, "image/") then
      assert t == "image/" + t[6..];
      true
    else
      t == "application/pdf"
  }
}
