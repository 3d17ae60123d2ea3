/**
 * The image drop area (frontend/src/components/dropzone/Dropzone.tsx): which dropped files it
 * refuses, how accepted files join the list of images, and the class string of the drop area.
 * ImageFile.ts is not part of this model; the fields of `ImageFile` are the ones the drop area
 * and the defect form read and write.
 */
module Dropzone {
  import opened Wrappers

  /** A dropped image and the upload bookkeeping attached to it. An absent URL is "". */
  class ImageFile {
    const name: string
    var isUploaded: bool
    var hasUploadError: bool
    var uploadUrl: string
    var deleteUrl: string
    var uploadedName: string

    /** The bookkeeping `onDrop` attaches: not uploaded, no error, no uploaded name, no URLs. */
    constructor Dropped(name: string)
      ensures this.name == name
      ensures !isUploaded && !hasUploadError && uploadedName == ""
      ensures uploadUrl == "" && deleteUrl == ""
    {
      this.name := name;
      isUploaded := false;
      hasUploadError := false;
      uploadUrl := "";
      deleteUrl := "";
      uploadedName := "";
    }
  }

  /** The rejection react-dropzone reports for a refused file. */
  datatype FileError = FileError(code: string, message: string)

  const AlreadyInList := FileError("file-already-in-list", "File already in list")

  /** `images.some(image => image.name === name)`, scanning from the front. */
  predicate SomeNamed(images: seq<ImageFile>, name: string) {
    images != [] && (images[0].name == name || SomeNamed(images[1..], name))
  }

  lemma {:induction false} SomeNamedExists(images: seq<ImageFile>, name: string)
    ensures SomeNamed(images, name) <==> exists i :: 0 <= i < |images| && images[i].name == name
  {
    if images != [] {
      SomeNamedExists(images[1..], name);
      if exists i :: 0 <= i < |images| && images[i].name == name {
        var i :| 0 <= i < |images| && images[i].name == name;
        if i > 0 {
          assert images[1..][i - 1].name == name;
        }
      }
      if exists i :: 0 <= i < |images[1..]| && images[1..][i].name == name {
        var i :| 0 <= i < |images[1..]| && images[1..][i].name == name;
        assert images[i + 1].name == name;
      }
    }
  }

  /**
   * `customFileValidator`: a file whose name some listed image already has is refused with
   * "file-already-in-list"; any other file is accepted (None).
   */
  function CustomFileValidator(images: seq<ImageFile>, fileName: string): (r: Option<FileError>)
    ensures r.Some? <==> exists i :: 0 <= i < |images| && images[i].name == fileName
    ensures r.Some? ==> r.value.code == "file-already-in-list"
  {
    SomeNamedExists(images, fileName);
    if SomeNamed(images, fileName) then Some(AlreadyInList) else None
  }

  /** The names of the listed images, in list order. */
  function Names(images: seq<ImageFile>): (ns: seq<string>)
    ensures |ns| == |images|
    ensures forall i :: 0 <= i < |images| ==> ns[i] == images[i].name
  {
    if images == [] then [] else [images[0].name] + Names(images[1..])
  }

  predicate Distinct(ns: seq<string>) {
    forall i, j :: 0 <= i < j < |ns| ==> ns[i] != ns[j]
  }

  /**
   * `onDrop`: every accepted file becomes an image with fresh bookkeeping, and the new images
   * follow the existing ones in drop order.
   */
  method OnDrop(images: seq<ImageFile>, accepted: seq<string>) returns (next: seq<ImageFile>)
    ensures |next| == |images| + |accepted|
    ensures next[..|images|] == images
    ensures forall k :: 0 <= k < |accepted| ==>
      var img := next[|images| + k];
      && fresh(img) && img.name == accepted[k]
      && !img.isUploaded && !img.hasUploadError && img.uploadedName == ""
  {
    var previewImages: seq<ImageFile> := [];
    for i := 0 to |accepted|
      invariant |previewImages| == i
      invariant forall k :: 0 <= k < i ==>
        var img := previewImages[k];
        && fresh(img) && img.name == accepted[k]
        && !img.isUploaded && !img.hasUploadError && img.uploadedName == ""
    {
      var img := new ImageFile.Dropped(accepted[i]);
      previewImages := previewImages + [img];
    }
    next := images + previewImages;
  }

  /**
   * Files that pass the validator keep the names of the list distinct, provided the files of one
   * drop have distinct names among themselves: the validator compares a file with the listed
   * images only, not with the other files of the same drop.
   */
  lemma {:induction false} DropKeepsNamesDistinct(images: seq<ImageFile>, accepted: seq<string>, next: seq<ImageFile>)
    requires Distinct(Names(images)) && Distinct(accepted)
    requires forall k :: 0 <= k < |accepted| ==> CustomFileValidator(images, accepted[k]).None?
    requires |next| == |images| + |accepted| && next[..|images|] == images
    requires forall k :: 0 <= k < |accepted| ==> next[|images| + k].name == accepted[k]
    ensures Distinct(Names(next))
  {
    forall i, j | 0 <= i < j < |next|
      ensures Names(next)[i] != Names(next)[j]
    {
      if j < |images| {
        assert next[i] == images[i] && next[j] == images[j];
        assert Names(images)[i] != Names(images)[j];
      } else if i < |images| {
        assert next[i] == images[i];
        assert CustomFileValidator(images, accepted[j - |images|]).None?;
      } else {
        assert accepted[i - |images|] != accepted[j - |images|];
      }
    }
  }

  /** The classes added to "baseStyle", in their fixed order. */
  function StyleClasses(isFocused: bool, isDragAccept: bool, isDragReject: bool): seq<string> {
    (if isFocused then ["focusedStyle"] else [])
    + (if isDragAccept then ["acceptStyle"] else [])
    + (if isDragReject then ["rejectStyle"] else [])
  }

  /** Each class preceded by one space, in list order. */
  function Spaced(cs: seq<string>): string {
    if cs == [] then "" else Spaced(cs[..|cs| - 1]) + " " + cs[|cs| - 1]
  }

  lemma SpacedAppend(cs: seq<string>, c: string)
    ensures Spaced(cs + [c]) == Spaced(cs) + " " + c
  {
    assert (cs + [c])[..|cs|] == cs;
  }

  /** A class when its flag is set, nothing otherwise. */
  function IfSet(flag: bool, c: string): seq<string> {
    if flag then [c] else []
  }

  /** One `styles += " " + c` guarded by its flag keeps the string in step with the class list. */
  lemma AppendStep(cs: seq<string>, styles: string, flag: bool, c: string)
    requires styles == "baseStyle" + Spaced(cs)
    ensures (if flag then styles + " " + c else styles) == "baseStyle" + Spaced(cs + IfSet(flag, c))
  {
    if flag {
      SpacedAppend(cs, c);
    } else {
      assert cs + [] == cs;
    }
  }

  /**
   * `style`: starts from "baseStyle" and appends " focusedStyle", " acceptStyle" and
   * " rejectStyle", in that order, for each flag that is set.
   */
  method Style(isFocused: bool, isDragAccept: bool, isDragReject: bool) returns (styles: string)
    ensures styles == "baseStyle" + Spaced(StyleClasses(isFocused, isDragAccept, isDragReject))
  {
    styles := "baseStyle";
    ghost var cs: seq<string> := [];
    AppendStep(cs, styles, isFocused, "focusedStyle");
    if isFocused {
      styles := styles + " " + "focusedStyle";
    }
    cs := cs + IfSet(isFocused, "focusedStyle");
    AppendStep(cs, styles, isDragAccept, "acceptStyle");
    if isDragAccept {
      styles := styles + " " + "acceptStyle";
    }
    cs := cs + IfSet(isDragAccept, "acceptStyle");
    AppendStep(cs, styles, isDragReject, "rejectStyle");
    if isDragReject {
      styles := styles + " " + "rejectStyle";
    }
    cs := cs + IfSet(isDragReject, "rejectStyle");
    assert cs == StyleClasses(isFocused, isDragAccept, isDragReject);
  }

  /** The added classes name each set flag exactly once, in the order focus, accept, reject. */
  lemma StyleClassesNameFlags(isFocused: bool, isDragAccept: bool, isDragReject: bool)
    ensures var cs := StyleClasses(isFocused, isDragAccept, isDragReject);
      && |cs| == (if isFocused then 1 else 0) + (if isDragAccept then 1 else 0) + (if isDragReject then 1 else 0)
      && ("focusedStyle" in cs <==> isFocused)
      && ("acceptStyle" in cs <==> isDragAccept)
      && ("rejectStyle" in cs <==> isDragReject)
      && (isFocused && |cs| > 1 ==> cs[0] == "focusedStyle")
      && (isDragReject ==> cs[|cs| - 1] == "rejectStyle")
  {
  }

  /** Different flags give different class lists. */
  lemma StyleClassesInjective(f: bool, a: bool, r: bool, f': bool, a': bool, r': bool)
    requires StyleClasses(f, a, r) == StyleClasses(f', a', r')
    ensures f == f' && a == a' && r == r'
  {
    StyleClassesNameFlags(f, a, r);
    StyleClassesNameFlags(f', a', r');
  }
}
