/**
 * The chat screen's camera result handler: the rotation it applies to the
 * returned photo, read from the photo's EXIF orientation tag.
 */
module MainActivity {
  import opened Wrappers
  import opened CameraActivity

  /** The EXIF orientation to degrees; every other value gives 0. */
  function ExifToDegrees(orientation: int): (r: int)
    ensures IsQuarterTurn(r)
  {
    if orientation == ORIENTATION_ROTATE_90 then 90
    else if orientation == ORIENTATION_ROTATE_180 then 180
    else if orientation == ORIENTATION_ROTATE_270 then 270
    else 0
  }

  /** `getAttributeInt(TAG_ORIENTATION, ORIENTATION_NORMAL)`, then the map:
      a photo without the tag is not rotated. */
  function ImageRotation(tag: Option<int>): (r: int)
    ensures IsQuarterTurn(r)
    ensures tag.None? ==> r == 0
  {
    ExifToDegrees(tag.GetOr(ORIENTATION_NORMAL))
  }

  /** Reading back what the camera wrote gives the same quarter turn. */
  lemma ExifRoundTrip(degrees: int)
    requires IsQuarterTurn(degrees)
    ensures ExifToDegrees(DegreesToExif(degrees)) == degrees
  {
  }

  /** Only the three rotating orientations rotate the photo. */
  lemma ExifToDegreesCases(orientation: int)
    ensures ExifToDegrees(orientation) != 0 <==>
      orientation in {ORIENTATION_ROTATE_90, ORIENTATION_ROTATE_180, ORIENTATION_ROTATE_270}
  {
  }

  /** A photo taken while the device was in bucket `Bucket(orientation)` is
      shown rotated by that same quarter turn. */
  lemma CapturedPhotoRotation(orientation: int)
    ensures ImageRotation(Some(DegreesToExif(SurfaceToDegrees(DegreesToSurface(Bucket(orientation))))))
      == Bucket(orientation)
  {
    CaptureEncodesBucket(orientation);
    ExifRoundTrip(Bucket(orientation));
  }
}
