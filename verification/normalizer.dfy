/**
 * The per-image normalisation step (app.py, AlignedOneImageUsingFaceXAlignment):
 * read an image, detect faces, and write either an aligned crop of the face
 * nearest the centre or, when no face is found, the image itself, to the path
 * obtained by swapping the input root for the output root.
 *
 * The image decoder, the face detector, the landmark aligner and the cropper
 * are collaborators whose code is not part of this model; they are passed in
 * as functions. The write is returned as an Outcome rather than performed.
 */
module Normalizer {
  import opened Wrappers
  import opened Geometry
  import Paths

  /** A decoded colour image, height (shape[0]) rows of width (shape[1]) pixels. */
  datatype Image = Image(height: nat, width: nat, pixels: seq<int>)

  /** Landmark coordinates of one face, flattened as reshape(-1) does. */
  type Landmarks = seq<real>

  /** What gets written: an aligned face crop, or the unmodified input image. */
  datatype Content = Cropped(face: Image) | Original(image: Image)

  /** The effect of normalising one image. makesParentDirs records that the
      missing parent directory is created before the write, which the source
      does in the face branch only. */
  datatype Outcome =
    | NoWrite
    | Write(path: string, content: Content, makesParentDirs: bool)

  /** The output location of an image: every occurrence of the input root
      replaced by the output root. */
  function OutPath(imagePath: string, inputRoot: string, outRoot: string): string
  {
    Paths.Replace(imagePath, inputRoot, outRoot)
  }

  function Normalize(
    inputRoot: string, outRoot: string, imagePath: string,
    read: string -> Option<Image>,
    detect: Image -> seq<Box>,
    align: (Image, Box) -> Landmarks,
    crop: (Image, Landmarks) -> Image): (o: Outcome)
    // An unreadable image is skipped silently; any readable one is written exactly once.
    ensures o.NoWrite? <==> read(imagePath).None?
    ensures o.Write? ==> o.path == OutPath(imagePath, inputRoot, outRoot)
    // No face: the image itself is written, without creating directories.
    ensures o.Write? && |detect(read(imagePath).value)| == 0 ==>
      o.content == Original(read(imagePath).value) && !o.makesParentDirs
    // Faces: the crop of the face nearest the image centre is written.
    ensures o.Write? && |detect(read(imagePath).value)| > 0 ==>
      var image := read(imagePath).value;
      var boxes := detect(image);
      o.makesParentDirs &&
      exists i :: IsCentreChoice(boxes, image.width, image.height, i) &&
        o.content == Cropped(crop(image, align(image, boxes[i])))
  {
    match read(imagePath)
    case None => NoWrite
    case Some(image) =>
      var boxes := detect(image);
      if |boxes| > 0 then
        var i := CentreIndex(boxes, image.width, image.height);
        var landmarks := align(image, boxes[i]);
        Write(OutPath(imagePath, inputRoot, outRoot), Cropped(crop(image, landmarks)), true)
      else
        Write(OutPath(imagePath, inputRoot, outRoot), Original(image), false)
  }

  /** The face branch is determined: for a readable image with detected
      boxes, whichever index meets the selection criterion, the written crop
      is that of the same box. */
  lemma NormalizeCropDetermined(
    inputRoot: string, outRoot: string, imagePath: string,
    image: Image, boxes: seq<Box>,
    align: (Image, Box) -> Landmarks,
    crop: (Image, Landmarks) -> Image,
    i: int)
    requires IsCentreChoice(boxes, image.width, image.height, i)
    ensures Normalize(inputRoot, outRoot, imagePath, _ => Some(image), _ => boxes, align, crop)
         == Write(OutPath(imagePath, inputRoot, outRoot),
                  Cropped(crop(image, align(image, boxes[i]))), true)
  {
    CentreChoiceUnique(boxes, image.width, image.height, i,
                       CentreIndex(boxes, image.width, image.height));
  }

  /** For a file directly inside the input root whose remaining path does not
      contain the root again, the output is the same file inside the output root. */
  lemma NormalizeMirrorsPath(
    inputRoot: string, outRoot: string, rest: string,
    read: string -> Option<Image>,
    detect: Image -> seq<Box>,
    align: (Image, Box) -> Landmarks,
    crop: (Image, Landmarks) -> Image)
    requires |inputRoot| > 0 && !Paths.Occurs(rest, inputRoot)
    requires read(inputRoot + rest).Some?
    ensures Normalize(inputRoot, outRoot, inputRoot + rest, read, detect, align, crop).path
         == outRoot + rest
  {
    Paths.MirrorPath(inputRoot, rest, outRoot);
  }
}
