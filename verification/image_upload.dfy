/** The frontend hook that holds the images picked for a trade before they
    are sent: the list of files, their previews and the error text shown to
    the user. Previews are read asynchronously by the browser; their arrival
    is a separate step here. */
module ImageUpload {
  import opened Util

  const AllowedTypes := ["image/jpeg", "image/png", "image/webp", "image/gif"]
  /** 5 MiB */
  const MaxFileSize := 5 * 1024 * 1024
  const MaxFiles := 10
  const LimitMessage := "Máximo 10 imágenes permitidas."

  /** A picked file: its name, declared MIME type and size in bytes */
  datatype File = File(name: string, mimeType: string, size: nat)

  /** A loaded preview: an id, the file and its data URL */
  datatype Preview = Preview(id: string, file: File, url: string)

  /** `validateFile(file)`: the type is checked first, then the size; `None`
      is the `null` of a valid file. */
  function ValidateFile(file: File): (problem: Option<string>)
    ensures problem.None? <==> file.mimeType in AllowedTypes && file.size <= MaxFileSize
    ensures file.mimeType !in AllowedTypes ==>
              problem == Some(file.name + ": Tipo no permitido. Use JPG, PNG, WebP o GIF.")
    ensures file.mimeType in AllowedTypes && file.size > MaxFileSize ==>
              problem == Some(file.name + ": Excede el tamaño máximo de 5MB.")
  {
    if file.mimeType !in AllowedTypes then Some(file.name + ": Tipo no permitido. Use JPG, PNG, WebP o GIF.")
    else if file.size > MaxFileSize then Some(file.name + ": Excede el tamaño máximo de 5MB.")
    else None
  }

  /** `files.some(f => f.name === file.name && f.size === file.size)` */
  predicate IsDuplicate(files: seq<File>, file: File) {
    exists j :: 0 <= j < |files| && files[j].name == file.name && files[j].size == file.size
  }

  /** A file `addFiles` takes: valid, and not already held under the same
      name and size */
  predicate Acceptable(held: seq<File>, file: File) {
    ValidateFile(file).None? && !IsDuplicate(held, file)
  }

  /** The files of a batch that `addFiles` appends, in batch order. Only the
      files already held count as duplicates. */
  function Accepts(held: seq<File>, batch: seq<File>): (r: seq<File>)
    ensures |r| <= |batch|
  {
    if batch == [] then []
    else
      var n := |batch| - 1;
      Accepts(held, batch[..n]) + (if Acceptable(held, batch[n]) then [batch[n]] else [])
  }

  /** The validation messages of a batch, in batch order */
  function Problems(batch: seq<File>): seq<string> {
    if batch == [] then []
    else
      var n := |batch| - 1;
      Problems(batch[..n]) + (match ValidateFile(batch[n]) case Some(m) => [m] case None => [])
  }

  /** Every appended file is valid, comes from the batch and was not held. */
  lemma {:induction false} AcceptsSound(held: seq<File>, batch: seq<File>, x: File)
    requires x in Accepts(held, batch)
    ensures x in batch && Acceptable(held, x)
  {
    var n := |batch| - 1;
    if x != batch[n] || !Acceptable(held, batch[n]) {
      AcceptsSound(held, batch[..n], x);
      assert batch[..n] <= batch;
    }
  }

  /** Every valid file of the batch that was not held is appended. */
  lemma {:induction false} AcceptsComplete(held: seq<File>, batch: seq<File>, x: File)
    requires x in batch && Acceptable(held, x)
    ensures x in Accepts(held, batch)
  {
    var n := |batch| - 1;
    if x != batch[n] {
      assert batch == batch[..n] + [batch[n]];
      AcceptsComplete(held, batch[..n], x);
    }
  }

  /** Duplicates inside one batch are not detected: a valid new file picked
      twice is appended twice. */
  lemma BatchDuplicatesKept(held: seq<File>, file: File)
    requires Acceptable(held, file)
    ensures Accepts(held, [file, file]) == [file, file]
  {
    assert [file, file][..1] == [file];
    assert [file][..0] == [];
  }

  predicate AllValid(batch: seq<File>) {
    forall i :: 0 <= i < |batch| ==> ValidateFile(batch[i]).None?
  }

  /** No message is collected exactly when every file of the batch is valid. */
  lemma {:induction false} NoProblems(batch: seq<File>)
    ensures Problems(batch) == [] <==> AllValid(batch)
  {
    if batch != [] {
      var n := |batch| - 1;
      NoProblems(batch[..n]);
      if AllValid(batch) {
        assert forall i :: 0 <= i < n ==> batch[..n][i] == batch[i];
      }
      if AllValid(batch[..n]) && ValidateFile(batch[n]).None? {
        assert forall i :: 0 <= i < n ==> batch[..n][i] == batch[i];
      }
    }
  }

  /** The hook's state */
  class Uploader {
    var files: seq<File>
    var previews: seq<Preview>
    var error: Option<string>

    constructor()
      ensures files == [] && previews == [] && error.None?
    {
      files := [];
      previews := [];
      error := None;
    }

    /** `addFiles(newFiles)`: clears the error; refuses the whole batch when
        the held and incoming files together exceed ten (invalid and
        duplicate ones included); otherwise appends the acceptable files and
        shows the messages of the invalid ones joined by spaces. */
    method AddFiles(newFiles: seq<File>)
      modifies this
      ensures |old(files)| + |newFiles| > MaxFiles ==>
                files == old(files) && error == Some(LimitMessage)
      ensures |old(files)| + |newFiles| <= MaxFiles ==>
                && files == old(files) + Accepts(old(files), newFiles)
                && error == (if Problems(newFiles) == [] then None else Some(Join(Problems(newFiles), " ")))
      ensures previews == old(previews)
      ensures |old(files)| <= MaxFiles ==> |files| <= MaxFiles
    {
      error := None;
      var filesToAdd := newFiles;
      if |files| + |filesToAdd| > MaxFiles {
        error := Some(LimitMessage);
        return;
      }
      var validFiles: seq<File> := [];
      var errors: seq<string> := [];
      for i := 0 to |filesToAdd|
        invariant validFiles == Accepts(files, filesToAdd[..i])
        invariant errors == Problems(filesToAdd[..i])
      {
        assert filesToAdd[..i + 1][..i] == filesToAdd[..i];
        var file := filesToAdd[i];
        var validationError := ValidateFile(file);
        if validationError.Some? {
          errors := errors + [validationError.value];
          continue;
        }
        var isDuplicate := IsDuplicate(files, file);
        if isDuplicate {
          continue;
        }
        validFiles := validFiles + [file];
      }
      assert filesToAdd[..|filesToAdd|] == filesToAdd;
      if |errors| > 0 {
        error := Some(Join(errors, " "));
      }
      if |validFiles| > 0 {
        files := files + validFiles;
      }
    }

    /** The previews of a batch once the browser has read them all: appended
        after the earlier ones */
    method PreviewsLoaded(loaded: seq<Preview>)
      modifies this
      ensures previews == old(previews) + loaded
      ensures files == old(files) && error == old(error)
    {
      previews := previews + loaded;
    }

    /** `handleInputChange` / `handleDrop`: a non-empty selection goes to
        `addFiles`; an empty one changes nothing. */
    method HandleSelection(selected: seq<File>)
      modifies this
      ensures selected == [] ==> files == old(files) && error == old(error)
      ensures selected != [] && |old(files)| + |selected| > MaxFiles ==>
                files == old(files) && error == Some(LimitMessage)
      ensures selected != [] && |old(files)| + |selected| <= MaxFiles ==>
                && files == old(files) + Accepts(old(files), selected)
                && error == (if Problems(selected) == [] then None else Some(Join(Problems(selected), " ")))
      ensures previews == old(previews)
    {
      if |selected| > 0 {
        AddFiles(selected);
      }
    }

    /** `removeFile(index)`: drops that position from the files and from the
        previews and clears the error. */
    method RemoveFile(index: int)
      modifies this
      ensures files == Without(old(files), index) && previews == Without(old(previews), index)
      ensures error.None?
      ensures |old(files)| <= MaxFiles ==> |files| <= MaxFiles
    {
      files := Without(files, index);
      previews := Without(previews, index);
      error := None;
    }

    /** `clearFiles()` */
    method ClearFiles()
      modifies this
      ensures files == [] && previews == [] && error.None?
    {
      files := [];
      previews := [];
      error := None;
    }
  }

  /** `s.filter((_, i) => i !== index)`: the sequence without position
      `index`, or unchanged when no position has that index */
  function Without<T>(s: seq<T>, index: int): (r: seq<T>)
    ensures !(0 <= index < |s|) ==> r == s
    ensures 0 <= index < |s| ==>
              && |r| == |s| - 1
              && (forall j :: 0 <= j < index ==> r[j] == s[j])
              && (forall j :: index <= j < |r| ==> r[j] == s[j + 1])
  {
    if 0 <= index < |s| then s[..index] + s[index + 1..] else s
  }

  /** Removing a position loses exactly the element held there. */
  lemma WithoutLoses<T>(s: seq<T>, index: int)
    requires 0 <= index < |s|
    ensures multiset(Without(s, index)) + multiset{s[index]} == multiset(s)
  {
    assert s == s[..index] + [s[index]] + s[index + 1..];
  }
}
