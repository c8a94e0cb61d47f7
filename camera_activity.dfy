/**
 * The camera screen's rotation bookkeeping: the orientation listener
 * buckets the sensor's raw orientation into a quarter turn, the capture use
 * case gets that as a `Surface` rotation, and the saved photo's EXIF
 * orientation tag is derived from it.
 */
module CameraActivity {
  import opened Wrappers

  /** `Surface.ROTATION_0` .. `Surface.ROTATION_270`. */
  const ROTATION_0 := 0
  const ROTATION_90 := 1
  const ROTATION_180 := 2
  const ROTATION_270 := 3

  /** `ExifInterface.ORIENTATION_*`. */
  const ORIENTATION_NORMAL := 1
  const ORIENTATION_ROTATE_180 := 3
  const ORIENTATION_ROTATE_90 := 6
  const ORIENTATION_ROTATE_270 := 8

  predicate IsQuarterTurn(d: int) {
    d == 0 || d == 90 || d == 180 || d == 270
  }

  predicate IsSurfaceRotation(s: int) {
    0 <= s <= 3
  }

  /** `onOrientationChanged`'s `when`: the branches are tried in order, so
      360 belongs to the first; anything outside 0..360, such as
      `ORIENTATION_UNKNOWN` (-1), gives 0. */
  function Bucket(orientation: int): (r: int)
    ensures IsQuarterTurn(r)
    ensures !(0 <= orientation <= 360) ==> r == 0
  {
    if 315 <= orientation <= 360 || 0 <= orientation <= 45 then 90
    else if 46 <= orientation <= 135 then 180
    else if 136 <= orientation <= 225 then 270
    else if 226 <= orientation <= 314 then 0
    else 0
  }

  /** The ranges of the whole circle each quarter turn comes from. */
  lemma BucketRanges(orientation: int)
    requires 0 <= orientation <= 360
    ensures Bucket(orientation) == 90 <==> (orientation <= 45 || 315 <= orientation)
    ensures Bucket(orientation) == 180 <==> 46 <= orientation <= 135
    ensures Bucket(orientation) == 270 <==> 136 <= orientation <= 225
    ensures Bucket(orientation) == 0 <==> 226 <= orientation <= 314
  {
  }

  /** Degrees to `Surface` rotation; a value that is not a quarter turn
      gives `ROTATION_0`. */
  function DegreesToSurface(degrees: int): (r: int)
    ensures IsSurfaceRotation(r)
    ensures !IsQuarterTurn(degrees) ==> r == ROTATION_0
  {
    if degrees == 0 then ROTATION_0
    else if degrees == 90 then ROTATION_90
    else if degrees == 180 then ROTATION_180
    else if degrees == 270 then ROTATION_270
    else ROTATION_0
  }

  /** `Surface` rotation to degrees, in `onImageSaved`. */
  function SurfaceToDegrees(rotation: int): (r: int)
    ensures IsQuarterTurn(r)
    ensures !IsSurfaceRotation(rotation) ==> r == 0
  {
    if rotation == ROTATION_0 then 0
    else if rotation == ROTATION_90 then 90
    else if rotation == ROTATION_180 then 180
    else if rotation == ROTATION_270 then 270
    else 0
  }

  /** Degrees to the EXIF orientation written into the photo. */
  function DegreesToExif(degrees: int): (r: int)
    ensures r in {ORIENTATION_NORMAL, ORIENTATION_ROTATE_90, ORIENTATION_ROTATE_180, ORIENTATION_ROTATE_270}
    ensures !IsQuarterTurn(degrees) ==> r == ORIENTATION_NORMAL
  {
    if degrees == 0 then ORIENTATION_NORMAL
    else if degrees == 90 then ORIENTATION_ROTATE_90
    else if degrees == 180 then ORIENTATION_ROTATE_180
    else if degrees == 270 then ORIENTATION_ROTATE_270
    else ORIENTATION_NORMAL
  }

  /** The two `Surface` maps are inverse bijections between the quarter
      turns and the four rotation constants. */
  lemma SurfaceRoundTrip(degrees: int, rotation: int)
    ensures IsQuarterTurn(degrees) ==> SurfaceToDegrees(DegreesToSurface(degrees)) == degrees
    ensures IsSurfaceRotation(rotation) ==> DegreesToSurface(SurfaceToDegrees(rotation)) == rotation
  {
  }

  /** Distinct quarter turns get distinct EXIF orientations. */
  lemma ExifInjective(a: int, b: int)
    requires IsQuarterTurn(a) && IsQuarterTurn(b) && a != b
    ensures DegreesToExif(a) != DegreesToExif(b)
  {
  }

  /** The state of `CameraScreen`: the live rotation and the capture use
      case's target rotation, `None` until the preview has created it. */
  class CameraScreen {
    var currentRotationDegrees: int
    var targetRotation: Option<int>

    constructor()
      ensures currentRotationDegrees == 0 && targetRotation == None
    {
      currentRotationDegrees := 0;
      targetRotation := None;
    }

    /** The listener writes the rotation state only when the bucket differs. */
    method OnOrientationChanged(orientation: int)
      modifies this
      ensures currentRotationDegrees == Bucket(orientation)
      ensures targetRotation == old(targetRotation)
      ensures old(currentRotationDegrees) == Bucket(orientation) ==> unchanged(this)
    {
      var newRotation := Bucket(orientation);
      if newRotation != currentRotationDegrees {
        currentRotationDegrees := newRotation;
      }
    }

    /** The preview factory builds the capture use case with the live rotation. */
    method BuildImageCapture()
      modifies this
      ensures targetRotation == Some(DegreesToSurface(currentRotationDegrees))
      ensures currentRotationDegrees == old(currentRotationDegrees)
    {
      targetRotation := Some(DegreesToSurface(currentRotationDegrees));
    }

    /** `takePhoto`: with a capture use case, retargets it and returns the
        EXIF orientation the saved photo gets; without one nothing happens. */
    method TakePhoto(degrees: int) returns (exif: Option<int>)
      modifies this
      ensures old(targetRotation).None? ==> exif == None && unchanged(this)
      ensures old(targetRotation).Some? ==>
        && targetRotation == Some(DegreesToSurface(degrees))
        && exif == Some(DegreesToExif(SurfaceToDegrees(DegreesToSurface(degrees))))
      ensures currentRotationDegrees == old(currentRotationDegrees)
    {
      var rotation := DegreesToSurface(degrees);
      if targetRotation.Some? {
        targetRotation := Some(rotation);
        var deviceRotationDegrees := SurfaceToDegrees(rotation);
        exif := Some(DegreesToExif(deviceRotationDegrees));
      } else {
        exif := None;
      }
    }
  }

  /** The photo's EXIF orientation encodes the bucket the device was in. */
  lemma CaptureEncodesBucket(orientation: int)
    ensures DegreesToExif(SurfaceToDegrees(DegreesToSurface(Bucket(orientation))))
      == DegreesToExif(Bucket(orientation))
  {
    SurfaceRoundTrip(Bucket(orientation), 0);
  }
}
