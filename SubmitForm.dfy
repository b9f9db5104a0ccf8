/** The client side of submission: the form keeps the list of uploaded
    chat-log file URLs, uploads one file per selection, lets the user remove
    a URL, and sends the list as repeated hidden `chatLogFiles` inputs. The
    upload itself is a parameter: the URL the blob store returns for a file,
    or None when the upload throws. */
module SubmitForm {
  import opened Common
  import opened Forms
  import opened Auth
  import opened SubmitActions

  /** The list after one change of the file input: unchanged for an empty
      selection; otherwise only the first selected file is uploaded and its
      URL appended, even when the same URL is already listed. A failed
      upload leaves the list as it was. */
  function AfterUpload(files: seq<string>, selection: seq<string>, upload: string -> Option<string>): (r: seq<string>)
    ensures selection == [] || upload(selection[0]).None? ==> r == files
    ensures selection != [] && upload(selection[0]).Some? ==> r == files + [upload(selection[0]).value]
  {
    if selection == [] then files
    else
      match upload(selection[0])
      case Some(url) => files + [url]
      case None => files
  }

  /** Only the first selected file matters. */
  lemma OnlyFirstFileUploaded(files: seq<string>, selection: seq<string>, upload: string -> Option<string>)
    requires selection != []
    ensures AfterUpload(files, selection, upload) == AfterUpload(files, selection[..1], upload)
  {
  }

  /** `prev.filter((url) => url !== urlToRemove)`. */
  function Without(files: seq<string>, url: string): (r: seq<string>)
    ensures url !in r
    ensures forall u | u != url :: multiset(r)[u] == multiset(files)[u]
    ensures |r| <= |files|
  {
    if files == [] then []
    else
      assert files == [files[0]] + files[1..];
      var rest := Without(files[1..], url);
      if files[0] == url then rest else [files[0]] + rest
  }

  /** Removing keeps the order of what stays. */
  lemma {:induction false} WithoutAppend(a: seq<string>, b: seq<string>, url: string)
    ensures Without(a + b, url) == Without(a, url) + Without(b, url)
  {
    if a == [] {
      assert a + b == b;
    } else {
      assert (a + b)[0] == a[0];
      assert (a + b)[1..] == a[1..] + b;
      WithoutAppend(a[1..], b, url);
    }
  }

  lemma {:induction false} WithoutAbsent(files: seq<string>, url: string)
    requires url !in files
    ensures Without(files, url) == files
  {
    if files != [] {
      WithoutAbsent(files[1..], url);
    }
  }

  /** Removing the URL just uploaded undoes the upload, provided the URL was
      not listed already; a URL listed twice is removed twice over. */
  lemma RemoveUndoesUpload(files: seq<string>, selection: seq<string>, upload: string -> Option<string>)
    requires selection != [] && upload(selection[0]).Some? && upload(selection[0]).value !in files
    ensures Without(AfterUpload(files, selection, upload), upload(selection[0]).value) == files
  {
    var url := upload(selection[0]).value;
    WithoutAppend(files, [url], url);
    WithoutAbsent(files, url);
  }

  /** The hidden inputs of the form: the benchmark id, then one
      `chatLogFiles` entry per uploaded URL, in list order. */
  function HiddenInputs(benchmarkId: string, files: seq<string>): (r: FormData)
    ensures |r| == |files| + 1
    ensures r[0] == ("benchmarkId", benchmarkId)
    ensures forall i | 0 <= i < |files| :: r[i + 1] == ("chatLogFiles", files[i])
  {
    [("benchmarkId", benchmarkId)] + seq(|files|, i requires 0 <= i < |files| => ("chatLogFiles", files[i]))
  }

  /** The server reads back exactly the list the form holds, duplicates and
      order included, whatever other (differently named) fields the form
      carries. */
  lemma {:induction false} FilesReachServer(benchmarkId: string, files: seq<string>, rest: FormData, user: SessionUser)
    requires forall i | 0 <= i < |rest| :: rest[i].0 != "chatLogFiles"
    ensures RawData(HiddenInputs(benchmarkId, files) + rest, user).chatLogFiles == files
  {
    var form := HiddenInputs(benchmarkId, files) + rest;
    GetAllAppendAt(HiddenInputs(benchmarkId, files), rest, "chatLogFiles");
    NoneNamed(rest, "chatLogFiles");
    var entries := seq(|files|, i requires 0 <= i < |files| => ("chatLogFiles", files[i]));
    assert HiddenInputs(benchmarkId, files) == [("benchmarkId", benchmarkId)] + entries;
    GetAllAppendAt([("benchmarkId", benchmarkId)], entries, "chatLogFiles");
    AllNamed(files);
    assert GetAll([("benchmarkId", benchmarkId)], "chatLogFiles") == [] by {
      assert [("benchmarkId", benchmarkId)][1..] == [];
    }
  }

  lemma {:induction false} NoneNamed(form: FormData, name: string)
    requires forall i | 0 <= i < |form| :: form[i].0 != name
    ensures GetAll(form, name) == []
  {
    if form != [] {
      NoneNamed(form[1..], name);
    }
  }

  lemma {:induction false} AllNamed(files: seq<string>)
    ensures GetAll(seq(|files|, i requires 0 <= i < |files| => ("chatLogFiles", files[i])), "chatLogFiles") == files
  {
    var entries := seq(|files|, i requires 0 <= i < |files| => ("chatLogFiles", files[i]));
    if files != [] {
      AllNamed(files[1..]);
      assert entries[1..] == seq(|files[1..]|, i requires 0 <= i < |files[1..]| => ("chatLogFiles", files[1..][i]));
    }
  }

  /** The form component's upload state. */
  class Form {
    var uploadedFiles: seq<string>
    var isUploading: bool

    constructor ()
      ensures uploadedFiles == [] && !isUploading
    {
      uploadedFiles := [];
      isUploading := false;
    }

    /** `handleFileUpload`: an empty selection returns at once; otherwise
        the flag is raised for the upload and lowered in `finally`. */
    method HandleFileUpload(selection: seq<string>, upload: string -> Option<string>)
      modifies this
      ensures uploadedFiles == AfterUpload(old(uploadedFiles), selection, upload)
      ensures isUploading == (selection == [] && old(isUploading))
    {
      if selection == [] {
        return;
      }
      var file := selection[0];
      isUploading := true;
      var outcome := upload(file);
      if outcome.Some? {
        uploadedFiles := uploadedFiles + [outcome.value];
      }
      isUploading := false;
    }

    /** `removeFile(urlToRemove)`. */
    method RemoveFile(url: string)
      modifies this
      ensures uploadedFiles == Without(old(uploadedFiles), url)
      ensures isUploading == old(isUploading)
    {
      uploadedFiles := Without(uploadedFiles, url);
    }
  }
}
