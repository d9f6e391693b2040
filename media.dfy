/**
 * What the media sender re-uploads: the photo/document decision taken from
 * the original message's media, and the media descriptor built from it.
 */
module Media {
  import opened Wrappers

  /** An attribute of a document: the video tag, a file name, or anything else. */
  datatype DocAttribute = VideoAttr | FilenameAttr(fileName: string) | OtherAttr

  /** `attributes` is None when the document object has no attribute list. */
  datatype Document = Document(attributes: Option<seq<DocAttribute>>)

  /**
   * The media of an inbound message: `photo` is whether `media.photo` is
   * truthy, `document` is `media.document` when truthy.
   */
  datatype MessageMedia = MessageMedia(photo: bool, document: Option<Document>)

  /** The media of the outgoing request; `file` is the staged path the upload was made from. */
  datatype InputMedia =
    | UploadedPhoto(file: string)
    | UploadedDocument(file: string, mimeType: string, attributes: seq<DocAttribute>)

  const OctetStream: string := "application/octet-stream"

  predicate HasVideo(attrs: seq<DocAttribute>) {
    exists i :: 0 <= i < |attrs| && attrs[i].VideoAttr?
  }

  /** The document is present, has an attribute list, and the list holds a video tag. */
  predicate IsVideoDocument(m: MessageMedia) {
    m.document.Some? && m.document.value.attributes.Some? && HasVideo(m.document.value.attributes.value)
  }

  /** Sent as a photo: the photo is present and no video attribute is found. */
  predicate IsPhoto(m: MessageMedia) {
    m.photo && !IsVideoDocument(m)
  }

  /** `os.path.basename(path)`: what follows the last '/'. */
  function Basename(path: string): (r: string)
    ensures |r| <= |path| && r == path[|path| - |r|..]
    ensures '/' !in r
    ensures |r| < |path| ==> path[|path| - |r| - 1] == '/'
    decreases |path|
  {
    if path == [] || path[|path| - 1] == '/' then []
    else Basename(path[..|path| - 1]) + [path[|path| - 1]]
  }

  /** The descriptor the sender builds for a staged file and the original media. */
  function InputMediaFor(path: string, m: MessageMedia): (r: InputMedia)
    ensures r.file == path
    ensures r.UploadedPhoto? <==> IsPhoto(m)
    ensures r.UploadedDocument? ==>
      r.mimeType == OctetStream && r.attributes == [FilenameAttr(Basename(path))]
  {
    if IsPhoto(m) then UploadedPhoto(path)
    else UploadedDocument(path, OctetStream, [FilenameAttr(Basename(path))])
  }

  /** The attribute loop with `break`: whether any attribute is the video tag. */
  method ScanForVideo(attrs: seq<DocAttribute>) returns (isVideo: bool)
    ensures isVideo == HasVideo(attrs)
  {
    isVideo := false;
    for i := 0 to |attrs|
      invariant !isVideo
      invariant forall j :: 0 <= j < i ==> !attrs[j].VideoAttr?
    {
      if attrs[i].VideoAttr? {
        isVideo := true;
        break;
      }
    }
  }

  /**
   * The classification and descriptor part of `safe_send_media`: a photo
   * without a video attribute is re-sent as an uploaded photo, everything
   * else as a generic document named after the staged file.
   */
  method BuildInputMedia(path: string, m: MessageMedia) returns (media: InputMedia)
    ensures media == InputMediaFor(path, m)
    ensures media.file == path
    ensures media.UploadedPhoto? <==> m.photo && !IsVideoDocument(m)
    ensures media.UploadedDocument? ==>
      media.mimeType == "application/octet-stream" && media.attributes == [FilenameAttr(Basename(path))]
  {
    var isPhoto := m.photo;
    var isDocument := m.document.Some?;
    var isVideo := false;
    if isDocument && m.document.value.attributes.Some? {
      isVideo := ScanForVideo(m.document.value.attributes.value);
    }
    if isPhoto && !isVideo {
      media := UploadedPhoto(path);
    } else {
      var filename := Basename(path);
      media := UploadedDocument(path, OctetStream, [FilenameAttr(filename)]);
    }
  }

  /** A video document is re-sent without its video attribute: only the file name is kept. */
  lemma VideoLosesItsAttributes(path: string, m: MessageMedia)
    requires IsVideoDocument(m)
    ensures InputMediaFor(path, m).UploadedDocument?
    ensures !HasVideo(InputMediaFor(path, m).attributes)
  {
    var name := Basename(path);
    FileNameOnlyIsNotVideo(name);
    assert !IsPhoto(m);
  }

  lemma FileNameOnlyIsNotVideo(name: string)
    ensures !HasVideo([FilenameAttr(name)])
  {
    var attrs := [FilenameAttr(name)];
    assert forall i :: 0 <= i < |attrs| ==> !attrs[i].VideoAttr?;
  }

  /** A photo whose document carries no attribute list is still sent as a photo. */
  lemma PhotoWithoutAttributeList(path: string)
    ensures InputMediaFor(path, MessageMedia(true, Some(Document(None)))) == UploadedPhoto(path)
  {
  }

  /** The staged file's directory does not reach the file name attribute. */
  lemma BasenameOfStagedFile()
    ensures Basename("tmp_media/photo.jpg") == "photo.jpg"
  {
    var p := "tmp_media/photo.jpg";
    var r := Basename(p);
    assert p[9] == '/';
    assert forall k :: 10 <= k < |p| ==> p[k] != '/';
    assert |r| == 9;
  }
}
