/**
 * The client-side upload form, frontend/src/components/fileUploadList/FileUploadList.js.
 *
 * On submit, each selected file is checked in selection order: first its size
 * (at most 100 MiB), then its extension (the text after the last dot,
 * lowercased, which must be one of csv, txt, pdf, docx). Accepted files go
 * into the request; a request is sent only when at least one file was
 * accepted. Afterwards the selection is cleared whatever happened.
 */
module FileUpload {
  import opened Outcomes

  /** A selected browser `File`: its name and its size in bytes. */
  datatype File = File(name: string, size: nat)

  const MaxFileSize: nat := 100 * 1024 * 1024

  const AllowedExtensions: seq<string> := [".csv", ".txt", ".pdf", ".docx"]

  /** `name.split('.').pop()`: the text after the last dot, or the whole name when it has none. */
  function LastSegment(name: string): string
  {
    if name == [] then []
    else if name[|name| - 1] == '.' then []
    else LastSegment(name[..|name| - 1]) + [name[|name| - 1]]
  }

  /** The last segment is a dot-free suffix of the name that is either the whole name or directly preceded by a dot. */
  lemma {:induction false} LastSegmentSpec(name: string)
    ensures '.' !in LastSegment(name)
    ensures |LastSegment(name)| <= |name| && LastSegment(name) == name[|name| - |LastSegment(name)|..]
    ensures |LastSegment(name)| < |name| ==> name[|name| - |LastSegment(name)| - 1] == '.'
  {
    if name != [] && name[|name| - 1] != '.' {
      var front, c := name[..|name| - 1], name[|name| - 1];
      LastSegmentSpec(front);
      var rest := LastSegment(front);
      var segment := rest + [c];
      assert LastSegment(name) == segment;
      assert name == front + [c];
      assert name[|name| - |segment|..] == front[|front| - |rest|..] + [c];
      if |segment| < |name| {
        assert name[|name| - |segment| - 1] == front[|front| - |rest| - 1];
      }
    }
  }

  /** `toLowerCase` on one character, for the ASCII letters. */
  function LowerChar(c: char): (r: char)
    ensures !('A' <= r <= 'Z')
    ensures !('A' <= c <= 'Z') ==> r == c
  {
    if 'A' <= c <= 'Z' then (c as int + 32) as char else c
  }

  function ToLower(s: string): (r: string)
    ensures |r| == |s|
  {
    seq(|s|, i requires 0 <= i < |s| => LowerChar(s[i]))
  }

  /** Lowercasing twice is lowercasing once, so an already lowercased extension is left as it is. */
  lemma ToLowerIdempotent(s: string)
    ensures ToLower(ToLower(s)) == ToLower(s)
  {
    forall i | 0 <= i < |s|
      ensures ToLower(ToLower(s))[i] == ToLower(s)[i]
    {
      assert LowerChar(LowerChar(s[i])) == LowerChar(s[i]);
    }
  }

  /** The extension the form checks. */
  function Extension(name: string): string
  {
    ToLower(LastSegment(name))
  }

  /** `allowedExtensions.includes(`.${fileExtension}`)`. */
  predicate IsAllowedExtension(extension: string)
  {
    "." + extension in AllowedExtensions
  }

  predicate HasAllowedExtension(name: string)
  {
    IsAllowedExtension(Extension(name))
  }

  /** What the checks decide about one file. */
  datatype Verdict = Accept | TooLarge | InvalidExtension

  /** The size check runs first, so an oversized file is rejected whatever its name. */
  function Check(f: File): (v: Verdict)
    ensures v == TooLarge <==> f.size > MaxFileSize
    ensures v == InvalidExtension <==> f.size <= MaxFileSize && !HasAllowedExtension(f.name)
    ensures v == Accept <==> f.size <= MaxFileSize && HasAllowedExtension(f.name)
  {
    if f.size > MaxFileSize then TooLarge
    else if !HasAllowedExtension(f.name) then InvalidExtension
    else Accept
  }

  /** The accepted files, in selection order. */
  function AcceptedFiles(files: seq<File>): seq<File>
  {
    if files == [] then []
    else if Check(files[0]) == Accept then [files[0]] + AcceptedFiles(files[1..])
    else AcceptedFiles(files[1..])
  }

  /** The form data holds exactly the accepted files, never a rejected one. */
  lemma {:induction false} AcceptedFilesMembers(files: seq<File>)
    ensures |AcceptedFiles(files)| <= |files|
    ensures forall f :: f in AcceptedFiles(files) <==> f in files && Check(f) == Accept
  {
    if files != [] {
      var head, tail := files[0], files[1..];
      AcceptedFilesMembers(tail);
      assert files == [head] + tail;
      if Check(head) == Accept {
        assert AcceptedFiles(files) == [head] + AcceptedFiles(tail);
      } else {
        assert AcceptedFiles(files) == AcceptedFiles(tail);
      }
    }
  }

  /** Some file is accepted exactly when the accepted list is not empty. */
  lemma SomeFileAccepted(files: seq<File>)
    ensures AcceptedFiles(files) != [] <==> exists i :: 0 <= i < |files| && Check(files[i]) == Accept
  {
    AcceptedFilesMembers(files);
    if AcceptedFiles(files) != [] {
      assert AcceptedFiles(files)[0] in AcceptedFiles(files);
    } else {
      forall i | 0 <= i < |files| ensures Check(files[i]) != Accept {
        assert files[i] in files;
      }
    }
  }

  /** Filtering keeps the selection order: it distributes over concatenation. */
  lemma {:induction false} AcceptedFilesAppend(a: seq<File>, b: seq<File>)
    ensures AcceptedFiles(a + b) == AcceptedFiles(a) + AcceptedFiles(b)
  {
    if a != [] {
      assert (a + b)[0] == a[0] && (a + b)[1..] == a[1..] + b;
      AcceptedFilesAppend(a[1..], b);
    } else {
      assert a + b == b;
    }
  }

  lemma DotPrefix(e: string, dotted: string)
    requires |dotted| > 0 && dotted[0] == '.'
    ensures "." + e == dotted <==> e == dotted[1..]
  {
    if "." + e == dotted {
      assert e == ("." + e)[1..];
    }
    if e == dotted[1..] {
      assert dotted == [dotted[0]] + dotted[1..];
    }
  }

  /** The allowed extensions, without their dots: exactly csv, txt, pdf and docx. */
  lemma AllowedExtensionsSpelledOut(e: string)
    ensures IsAllowedExtension(e) <==> e in ["csv", "txt", "pdf", "docx"]
  {
    DotPrefix(e, ".csv");
    DotPrefix(e, ".txt");
    DotPrefix(e, ".pdf");
    DotPrefix(e, ".docx");
    assert ".csv"[1..] == "csv" && ".txt"[1..] == "txt" && ".pdf"[1..] == "pdf" && ".docx"[1..] == "docx";
  }

  /** A file is accepted exactly when it is small enough and its extension is csv, txt, pdf or docx in any letter case. */
  lemma AcceptedExtensions(f: File)
    ensures Check(f) == Accept <==>
              f.size <= MaxFileSize && Extension(f.name) in ["csv", "txt", "pdf", "docx"]
  {
    AllowedExtensionsSpelledOut(Extension(f.name));
  }

  /** The contract of `LastSegment` determines it: any dot-free suffix that is the whole name or follows a dot is it. */
  lemma LastSegmentUnique(name: string, segment: string)
    requires '.' !in segment
    requires |segment| <= |name| && segment == name[|name| - |segment|..]
    requires |segment| < |name| ==> name[|name| - |segment| - 1] == '.'
    ensures LastSegment(name) == segment
  {
    LastSegmentSpec(name);
  }

  /** A file of exactly 100 MiB passes the size check; one byte more fails it, whatever the name. */
  lemma SizeBoundary(name: string)
    ensures Check(File(name, MaxFileSize)) != TooLarge
    ensures Check(File(name, MaxFileSize + 1)) == TooLarge
  {
  }

  /** A name without a dot is its own extension: a file named `txt` is accepted. */
  lemma DotlessNameAccepted()
    ensures Check(File("txt", 1)) == Accept
  {
    LastSegmentUnique("txt", "txt");
    assert Extension("txt") == "txt";
    AllowedExtensionsSpelledOut("txt");
  }

  /** Letter case is ignored: `Report.PDF` is accepted. */
  lemma UpperCaseExtensionAccepted()
    ensures Check(File("Report.PDF", 1)) == Accept
  {
    LastSegmentUnique("Report.PDF", "PDF");
    assert LowerChar('P') == 'p' && LowerChar('D') == 'd' && LowerChar('F') == 'f';
    assert Extension("Report.PDF") == "pdf";
    AllowedExtensionsSpelledOut("pdf");
  }

  /** Any name ending in `.PDF` has the extension `pdf`, so a small enough file with such a name is accepted. */
  lemma UpperCasePdfAccepted(name: string, size: nat)
    requires |name| >= 4 && name[|name| - 4..] == ".PDF" && size <= MaxFileSize
    ensures Extension(name) == "pdf"
    ensures Check(File(name, size)) == Accept
  {
    assert name[|name| - 3..] == "PDF" && name[|name| - 4] == '.';
    LastSegmentUnique(name, "PDF");
    assert LowerChar('P') == 'p' && LowerChar('D') == 'd' && LowerChar('F') == 'f';
    assert Extension(name) == "pdf";
    AllowedExtensionsSpelledOut("pdf");
  }

  /** Only the text after the last dot counts: `notes.txt.zip` is rejected. */
  lemma OnlyLastDotCounts()
    ensures Check(File("notes.txt.zip", 1)) == InvalidExtension
  {
    LastSegmentUnique("notes.txt.zip", "zip");
    assert Extension("notes.txt.zip") == "zip";
    AllowedExtensionsSpelledOut("zip");
  }

  /** A name ending in a dot has the empty extension: `csv.` is rejected. */
  lemma TrailingDotRejected()
    ensures Check(File("csv.", 1)) == InvalidExtension
  {
    LastSegmentUnique("csv.", "");
    assert Extension("csv.") == "";
    AllowedExtensionsSpelledOut("");
  }

  /** The error notices and the outcome notices the form shows. */
  datatype Toast =
    | TooLargeError(name: string)
    | InvalidExtensionError(name: string)
    | UploadStarted
    | UploadSucceeded(message: string)
    | UploadFailed
    | NoFilesUploaded

  /** The error notice a file draws, if it is rejected. */
  function Notice(f: File): seq<Toast>
  {
    match Check(f)
    case Accept => []
    case TooLarge => [TooLargeError(f.name)]
    case InvalidExtension => [InvalidExtensionError(f.name)]
  }

  /** The error notices for the rejected files, in selection order. */
  function RejectionToasts(files: seq<File>): seq<Toast>
  {
    if files == [] then [] else Notice(files[0]) + RejectionToasts(files[1..])
  }

  lemma {:induction false} RejectionToastsAppend(a: seq<File>, b: seq<File>)
    ensures RejectionToasts(a + b) == RejectionToasts(a) + RejectionToasts(b)
  {
    if a != [] {
      assert (a + b)[0] == a[0] && (a + b)[1..] == a[1..] + b;
      RejectionToastsAppend(a[1..], b);
      assert Notice(a[0]) + (RejectionToasts(a[1..]) + RejectionToasts(b))
          == (Notice(a[0]) + RejectionToasts(a[1..])) + RejectionToasts(b);
    } else {
      assert a + b == b;
    }
  }

  /**
   * The `forEach` loop of `handleSubmit`: appends each accepted file to the
   * form data, sets `filesappended`, and raises a notice for each rejected file.
   */
  method FilterSelection(selected: seq<File>) returns (formData: seq<File>, filesAppended: bool, toasts: seq<Toast>)
    ensures formData == AcceptedFiles(selected)
    ensures filesAppended <==> exists i :: 0 <= i < |selected| && Check(selected[i]) == Accept
    ensures filesAppended <==> formData != []
    ensures toasts == RejectionToasts(selected)
  {
    formData, filesAppended, toasts := [], false, [];
    for i := 0 to |selected|
      invariant formData == AcceptedFiles(selected[..i])
      invariant filesAppended <==> formData != []
      invariant toasts == RejectionToasts(selected[..i])
    {
      var file := selected[i];
      assert selected[..i + 1] == selected[..i] + [file];
      AcceptedFilesAppend(selected[..i], [file]);
      RejectionToastsAppend(selected[..i], [file]);
      assert AcceptedFiles([file]) == if Check(file) == Accept then [file] else [];
      assert RejectionToasts([file]) == Notice(file);
      if file.size > MaxFileSize {
        toasts := toasts + [TooLargeError(file.name)];
        continue;
      }
      if !HasAllowedExtension(file.name) {
        toasts := toasts + [InvalidExtensionError(file.name)];
        continue;
      }
      formData := formData + [file];
      filesAppended := true;
    }
    assert selected[..|selected|] == selected;
    SomeFileAccepted(selected);
  }

  /** The component's state. */
  class FileUploadList {
    var uploadedFiles: seq<File>
    var selectedFiles: seq<File>
    var inputValue: string

    constructor ()
      ensures uploadedFiles == [] && selectedFiles == [] && inputValue == ""
    {
      uploadedFiles, selectedFiles, inputValue := [], [], "";
    }

    /** `handleFileChange`: the new selection replaces the old one. */
    method HandleFileChange(files: seq<File>, value: string)
      modifies this`selectedFiles, this`inputValue
      ensures selectedFiles == files && inputValue == value
    {
      selectedFiles := files;
      inputValue := value;
    }

    /**
     * `handleSubmit`. `postReply` stands for the outcome of the POST, should
     * one be sent: the server's message, or `None` when it fails. The request
     * carries the accepted files; the uploaded list becomes the whole
     * selection (rejected files included) only after a successful POST; the
     * selection and the file input are cleared in every case.
     */
    method HandleSubmit(postReply: Option<string>) returns (request: Option<seq<File>>, toasts: seq<Toast>)
      modifies this
      ensures request == if AcceptedFiles(old(selectedFiles)) == [] then None else Some(AcceptedFiles(old(selectedFiles)))
      ensures uploadedFiles == if request.Some? && postReply.Some? then old(selectedFiles) else old(uploadedFiles)
      ensures selectedFiles == [] && inputValue == ""
      ensures toasts == RejectionToasts(old(selectedFiles)) +
                        if request.None? then [NoFilesUploaded]
                        else if postReply.Some? then [UploadStarted, UploadSucceeded(postReply.value)]
                        else [UploadStarted, UploadFailed]
    {
      var formData, filesAppended;
      formData, filesAppended, toasts := FilterSelection(selectedFiles);
      if filesAppended {
        request := Some(formData);
        toasts := toasts + [UploadStarted];
        if postReply.Some? {
          toasts := toasts + [UploadSucceeded(postReply.value)];
          uploadedFiles := selectedFiles;
        } else {
          toasts := toasts + [UploadFailed];
        }
      } else {
        request := None;
        toasts := toasts + [NoFilesUploaded];
      }
      selectedFiles := [];
      inputValue := "";
    }
  }
}
