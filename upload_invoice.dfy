/** The upload form of src/components/UploadInvoice.tsx: which selected files
    are accepted, the error text and the initial progress table it sets up, the
    required-field check on the fields extracted from a file, and the removal
    of the data URL header (RFC 2397) before the payload is sent on. */
module Upload {
  import opened Wrappers
  import opened Seqs
  import opened Strings
  import opened Storage

  /** A selected file: its name, MIME type and size in bytes. */
  datatype File = File(name: string, mimeType: string, size: nat)

  /** 10 MB, the largest accepted file. */
  const MaxFileSize: nat := 10 * 1024 * 1024

  /** An image of any subtype, or a PDF. */
  predicate SupportedType(mimeType: string): (b: bool)
    ensures b <==> (|mimeType| >= 6 && mimeType[..6] == "image/") || mimeType == "application/pdf"
  {
    "image/" <= mimeType || mimeType == "application/pdf"
  }

  datatype Verdict = Accepted | Rejected(message: string)

  /** The type is checked before the size, so a file of the wrong type gets
      only the type error. */
  function CheckFile(f: File): (v: Verdict)
    ensures v == Accepted <==> SupportedType(f.mimeType) && f.size <= MaxFileSize
    ensures !SupportedType(f.mimeType) ==> v == Rejected(f.name + ": Unsupported file type")
    ensures SupportedType(f.mimeType) && f.size > MaxFileSize ==> v == Rejected(f.name + ": File size exceeds 10MB")
  {
    if !SupportedType(f.mimeType) then Rejected(f.name + ": Unsupported file type")
    else if f.size > MaxFileSize then Rejected(f.name + ": File size exceeds 10MB")
    else Accepted
  }

  predicate IsAccepted(f: File)
  {
    CheckFile(f).Accepted?
  }

  /** The error lines for the rejected files, in selection order. */
  function Rejections(files: seq<File>): (r: seq<string>)
    ensures |r| <= |files|
    ensures forall k :: 0 <= k < |r| ==> exists j :: 0 <= j < |files| && CheckFile(files[j]) == Rejected(r[k])
  {
    if files == [] then []
    else
      match CheckFile(files[0])
      case Accepted => Rejections(files[1..])
      case Rejected(message) => [message] + Rejections(files[1..])
  }

  /** Each file is either accepted or gives one error line; there are no error
      lines exactly when every file is accepted. */
  lemma {:induction false} RejectionsCount(files: seq<File>)
    ensures |Rejections(files)| + |Filter(files, IsAccepted)| == |files|
    ensures Rejections(files) == [] <==> forall i :: 0 <= i < |files| ==> IsAccepted(files[i])
  {
    if files != [] {
      RejectionsCount(files[1..]);
      assert forall i :: 1 <= i < |files| ==> files[1..][i - 1] == files[i];
    }
  }

  lemma {:induction false} RejectionsAppend(a: seq<File>, b: seq<File>)
    ensures Rejections(a + b) == Rejections(a) + Rejections(b)
  {
    if a == [] {
      assert a + b == b;
    } else {
      assert (a + b)[1..] == a[1..] + b;
      RejectionsAppend(a[1..], b);
    }
  }

  /** What one more file adds to the accepted files and to the error lines. */
  lemma SnocStep(files: seq<File>, i: nat)
    requires i < |files|
    ensures Filter(files[..i + 1], IsAccepted)
              == Filter(files[..i], IsAccepted) + (if IsAccepted(files[i]) then [files[i]] else [])
    ensures Rejections(files[..i + 1])
              == Rejections(files[..i]) + (if CheckFile(files[i]).Rejected? then [CheckFile(files[i]).message] else [])
  {
    assert files[..i + 1] == files[..i] + [files[i]];
    FilterAppend(files[..i], [files[i]], IsAccepted);
    RejectionsAppend(files[..i], [files[i]]);
    assert [files[i]][1..] == [];
  }

  /** The `forEach` over the selected files that fills `validFiles` and
      `errors`. */
  method PartitionFiles(selected: seq<File>) returns (validFiles: seq<File>, errors: seq<string>)
    ensures validFiles == Filter(selected, IsAccepted)
    ensures errors == Rejections(selected)
    ensures |validFiles| + |errors| == |selected|
  {
    validFiles, errors := [], [];
    var i := 0;
    while i < |selected|
      invariant 0 <= i <= |selected|
      invariant validFiles == Filter(selected[..i], IsAccepted)
      invariant errors == Rejections(selected[..i])
    {
      var file := selected[i];
      SnocStep(selected, i);
      if !SupportedType(file.mimeType) {
        errors := errors + [file.name + ": Unsupported file type"];
      } else if file.size > MaxFileSize {
        errors := errors + [file.name + ": File size exceeds 10MB"];
      } else {
        validFiles := validFiles + [file];
      }
      i := i + 1;
    }
    assert selected[..i] == selected;
    RejectionsCount(selected);
  }

  /** The error shown: the rejection lines joined by newlines, or none at all. */
  function ErrorText(errors: seq<string>): (r: Option<string>)
    ensures r.None? <==> errors == []
  {
    if errors == [] then None else Some(Join(errors, "\n"))
  }

  datatype UploadStatus = Pending | Processing | Succeeded | Failed

  /** One entry of the progress table. */
  datatype Progress = Progress(status: UploadStatus, percent: nat)

  /** The names of the given files. */
  ghost function Names(files: seq<File>): set<string>
  {
    set f | f in files :: f.name
  }

  /** The `forEach` that gives every accepted file a pending entry at 0%. */
  method InitialProgress(validFiles: seq<File>) returns (progress: map<string, Progress>)
    ensures progress.Keys == Names(validFiles)
    ensures forall name :: name in progress ==> progress[name] == Progress(Pending, 0)
  {
    progress := map[];
    var i := 0;
    while i < |validFiles|
      invariant 0 <= i <= |validFiles|
      invariant progress.Keys == Names(validFiles[..i])
      invariant forall name :: name in progress ==> progress[name] == Progress(Pending, 0)
    {
      assert validFiles[..i + 1] == validFiles[..i] + [validFiles[i]];
      progress := progress[validFiles[i].name := Progress(Pending, 0)];
      i := i + 1;
    }
    assert validFiles[..i] == validFiles;
  }

  /** The component state `handleFileChange` writes. */
  class UploadForm {
    var files: seq<File>
    var error: Option<string>
    var uploadProgress: map<string, Progress>

    constructor ()
      ensures files == [] && error == None && uploadProgress == map[]
    {
      files, error, uploadProgress := [], None, map[];
    }

    /** `handleFileChange`. `selection` is `e.target.files`, absent when the
        input reports no file list (then nothing changes). */
    method HandleFileChange(selection: Option<seq<File>>)
      modifies this
      ensures selection.None? ==>
                files == old(files) && error == old(error) && uploadProgress == old(uploadProgress)
      ensures selection.Some? ==>
                && files == Filter(selection.value, IsAccepted)
                && error == ErrorText(Rejections(selection.value))
                && uploadProgress.Keys == Names(files)
                && forall name :: name in uploadProgress ==> uploadProgress[name] == Progress(Pending, 0)
    {
      if selection.None? {
        return;
      }
      var validFiles, errors := PartitionFiles(selection.value);
      error := ErrorText(errors);
      files := validFiles;
      uploadProgress := InitialProgress(validFiles);
    }
  }

  /** Every selected file ends up either among the accepted files, which keep
      their order, or as one error line. */
  lemma EveryFileLandsOnce(files: seq<File>)
    ensures |Filter(files, IsAccepted)| + |Rejections(files)| == |files|
    ensures IsSubsequence(Filter(files, IsAccepted), files)
    ensures forall i :: 0 <= i < |files| ==> (files[i] in Filter(files, IsAccepted) <==> IsAccepted(files[i]))
  {
    RejectionsCount(files);
    FilterIsSubsequence(files, IsAccepted);
  }

  /** The error is cleared exactly when no file was rejected. */
  lemma ErrorClearedIffAllAccepted(files: seq<File>)
    ensures ErrorText(Rejections(files)).None? <==> forall i :: 0 <= i < |files| ==> IsAccepted(files[i])
  {
    RejectionsCount(files);
  }

  /** The required-field check on extracted data: an error naming the missing
      keys in order, or none. */
  function ExtractedFieldsError(raw: Candidate): (r: Option<string>)
    ensures r.None? <==> MissingFields(raw) == []
    ensures r.Some? ==> r.value == Message(MissingRequired(MissingFields(raw)))
  {
    var missing := MissingFields(raw);
    if missing != [] then Some(Message(MissingRequired(missing))) else None
  }

  /** `result.split(',')[1] || result`: the piece between the first and the
      second comma when there is one and it is not empty, else the whole text. */
  function StripDataUrlPrefix(result: string): (r: string)
    ensures ',' !in result ==> r == result
    ensures r == result || (r != [] && ',' !in r && exists i :: OccursAt(result, r, i))
  {
    var parts := Split(result, ',');
    if |parts| > 1 && parts[1] != [] then
      JoinStartsWith(parts, [',']);
      assert OccursAt(result, parts[1], |parts[0]| + 1);
      parts[1]
    else result
  }

  /** Every text with a comma reads `header + "," + piece + tail`, where `header`
      and `piece` hold no comma and `tail` is empty or starts at the second comma.
      The strip keeps `piece` when it is not empty and the whole text otherwise. */
  lemma StripKeepsSecondPiece(header: string, piece: string, tail: string)
    requires ',' !in header && ',' !in piece && (tail == [] || tail[0] == ',')
    ensures StripDataUrlPrefix(header + "," + piece + tail)
              == if piece != [] then piece else header + "," + piece + tail
  {
    var more := SplitSecondPiece(header, piece, tail);
    StripBySplit(header + "," + piece + tail, header, piece, more);
  }

  /** Every text with a comma has the shape `StripKeepsSecondPiece` covers, so
      the two lemmas and the no-comma case fix the strip on every input. */
  lemma CommaTextShape(result: string) returns (header: string, piece: string, tail: string)
    requires ',' in result
    ensures result == header + "," + piece + tail
    ensures ',' !in header && ',' !in piece && (tail == [] || tail[0] == ',')
  {
    var after;
    header, after := CutAtFirst(result, ',');
    piece, tail := CutBeforeFirst(after, ',');
    assert header + "," + piece + tail == header + [','] + (piece + tail);
  }

  /** The split of such a text starts with `header` and `piece`. */
  lemma SplitSecondPiece(header: string, piece: string, tail: string) returns (more: seq<string>)
    requires ',' !in header && ',' !in piece && (tail == [] || tail[0] == ',')
    ensures Split(header + "," + piece + tail, ',') == [header, piece] + more
  {
    if tail == [] {
      SplitLastPiece(header, piece);
      assert header + "," + piece + tail == header + "," + piece;
      more := [];
    } else {
      var rest := tail[1..];
      SplitMiddlePiece(header, piece, rest);
      assert header + "," + piece + tail == header + "," + piece + "," + rest;
      more := Split(rest, ',');
    }
  }

  lemma SplitLastPiece(header: string, piece: string)
    requires ',' !in header && ',' !in piece
    ensures Split(header + "," + piece, ',') == [header, piece]
  {
    assert header + "," + piece == header + [','] + piece;
    SplitAtFirst(header, ',', piece);
    assert Split(piece, ',') == [piece];
  }

  lemma SplitMiddlePiece(header: string, piece: string, rest: string)
    requires ',' !in header && ',' !in piece
    ensures Split(header + "," + piece + "," + rest, ',') == [header, piece] + Split(rest, ',')
  {
    assert header + "," + piece + "," + rest == header + [','] + (piece + [','] + rest);
    SplitAtFirst(header, ',', piece + [','] + rest);
    SplitAtFirst(piece, ',', rest);
  }

  /** The strip reads only the second piece of the split. */
  lemma StripBySplit(result: string, head: string, piece: string, more: seq<string>)
    requires Split(result, ',') == [head, piece] + more
    ensures StripDataUrlPrefix(result) == if piece != [] then piece else result
  {
  }

  /** A data URL whose payload is non-empty and holds no comma yields the
      payload. */
  lemma StripDataUrl(header: string, payload: string)
    requires ',' !in header && ',' !in payload && payload != []
    ensures StripDataUrlPrefix(header + "," + payload) == payload
  {
    StripKeepsSecondPiece(header, payload, "");
    assert header + "," + payload + "" == header + "," + payload;
  }

  /** An empty piece after the first comma, at the end or before a second
      comma, falls back to the whole text. */
  lemma StripEmptyPayload(header: string, tail: string)
    requires ',' !in header && (tail == [] || tail[0] == ',')
    ensures StripDataUrlPrefix(header + "," + tail) == header + "," + tail
  {
    var more := SplitSecondPiece(header, [], tail);
    assert header + "," + [] + tail == header + "," + tail;
    StripBySplit(header + "," + tail, header, [], more);
  }

  /** A second comma ends the piece that is kept. */
  lemma StripStopsAtSecondComma(header: string, piece: string, rest: string)
    requires ',' !in header && ',' !in piece && piece != []
    ensures StripDataUrlPrefix(header + "," + piece + "," + rest) == piece
  {
    StripKeepsSecondPiece(header, piece, "," + rest);
    assert header + "," + piece + ("," + rest) == header + "," + piece + "," + rest;
  }
}
