/**
 * `handleImageUpload` (src/controllers/uploadController.js): after multer has stored the
 * file, answer with the public URL it is served under.
 */
module UploadController {
  import opened Common
  import opened Http

  /** What multer records of a stored file. Only `filename` reaches the response. */
  datatype UploadedFile = UploadedFile(filename: string, originalName: string, mimeType: string, size: nat)

  /** The parts of the request the handler reads: `req.file`, `req.protocol`, `req.get("host")`. */
  datatype UploadRequest = UploadRequest(file: Option<UploadedFile>, protocol: string, host: Option<string>)

  const NoImageMessage := "No image uploaded"
  const UploadOkMessage := "Upload successful"

  /** A template literal renders a missing header as the text "undefined". */
  function HostText(host: Option<string>): string {
    if host.Some? then host.value else "undefined"
  }

  /** Everything of the URL that comes before the file name. */
  function UrlPrefix(protocol: string, host: Option<string>): string {
    protocol + "://" + HostText(host) + "/uploads/"
  }

  /** `${req.protocol}://${req.get("host")}/uploads/${req.file.filename}` */
  function ImageUrl(protocol: string, host: Option<string>, filename: string): (url: string)
    ensures |url| == |UrlPrefix(protocol, host)| + |filename|
    ensures url[..|UrlPrefix(protocol, host)|] == UrlPrefix(protocol, host)
    ensures url[|UrlPrefix(protocol, host)|..] == filename
  {
    protocol + "://" + HostText(host) + "/uploads/" + filename
  }

  /** Under one origin, distinct files get distinct URLs: the file name is recoverable. */
  lemma ImageUrlInjective(protocol: string, host: Option<string>, f1: string, f2: string)
    requires ImageUrl(protocol, host, f1) == ImageUrl(protocol, host, f2)
    ensures f1 == f2
  {
  }

  /** `handleImageUpload`: 400 without a file, else 201 with the URL the file is served under. */
  function HandleImageUpload(req: UploadRequest): (r: Response)
    ensures r.cookie == KeepCookies
    ensures req.file.None? ==> r == Response(400, Message(NoImageMessage), KeepCookies)
    ensures req.file.Some? ==>
              && r.status == 201 && r.body.Uploaded? && r.body.message == UploadOkMessage
              && |r.body.imageUrl| == |UrlPrefix(req.protocol, req.host)| + |req.file.value.filename|
              && r.body.imageUrl[..|UrlPrefix(req.protocol, req.host)|] == UrlPrefix(req.protocol, req.host)
              && r.body.imageUrl[|UrlPrefix(req.protocol, req.host)|..] == req.file.value.filename
  {
    if req.file.None? then Response(400, Message(NoImageMessage), KeepCookies)
    else Response(201, Uploaded(UploadOkMessage, ImageUrl(req.protocol, req.host, req.file.value.filename)), KeepCookies)
  }

  /** The answer depends on the file only through its stored name, and on nothing else but the origin. */
  lemma UploadDependsOnlyOnOriginAndFilename(r1: UploadRequest, r2: UploadRequest)
    requires r1.file.Some? && r2.file.Some?
    requires r1.protocol == r2.protocol && r1.host == r2.host
    requires r1.file.value.filename == r2.file.value.filename
    ensures HandleImageUpload(r1) == HandleImageUpload(r2)
  {
  }
}
