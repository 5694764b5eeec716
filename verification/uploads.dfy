/**
 * Files handed to a controller by the upload middleware, and the image
 * references `{public_id, url}` the controllers store for them.
 */
module Uploads {

  /** A file as the upload middleware describes it: its storage key and its URL. */
  datatype UploadedFile = UploadedFile(filename: string, path: string)

  /** A stored image reference: `public_id` is the object-store key. */
  datatype Image = Image(publicId: string, url: string)

  function ToImage(f: UploadedFile): Image {
    Image(f.filename, f.path)
  }

  /** `files.map(file => ({public_id: file.filename, url: file.path}))`. */
  function ToImages(files: seq<UploadedFile>): (images: seq<Image>)
    ensures |images| == |files|
    ensures forall i :: 0 <= i < |files| ==>
      images[i].publicId == files[i].filename && images[i].url == files[i].path
  {
    if files == [] then [] else [ToImage(files[0])] + ToImages(files[1..])
  }
}
