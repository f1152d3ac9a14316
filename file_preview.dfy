/** The preview modal's view state (components/ui/FilePreview.tsx): zoom
    and rotation changed by its buttons and reset when a file is opened,
    and the choice of what the modal shows. */
module FilePreview {

  import opened Wrappers
  import opened Text
  import opened Items

  const MinZoom := 25
  const MaxZoom := 200
  const ZoomStep := 25

  /** `Math.min(200, zoom + 25)`. */
  function ZoomedIn(zoom: int): int {
    if zoom + ZoomStep < MaxZoom then zoom + ZoomStep else MaxZoom
  }

  /** `Math.max(25, zoom - 25)`. */
  function ZoomedOut(zoom: int): int {
    if zoom - ZoomStep > MinZoom then zoom - ZoomStep else MinZoom
  }

  /** `(rotation + 90) % 360`; the operands are never negative here, so
      JavaScript's `%` and Dafny's agree. */
  function Rotated(rotation: int): int {
    (rotation + 90) % 360
  }

  /** A zoom level the buttons can reach from 100: a multiple of 25 in [25, 200]. */
  predicate ZoomLevel(zoom: int) {
    MinZoom <= zoom <= MaxZoom && zoom % ZoomStep == 0
  }

  /** A quarter turn. */
  predicate QuarterTurn(rotation: int) {
    rotation == 0 || rotation == 90 || rotation == 180 || rotation == 270
  }

  lemma ZoomStaysLevel(zoom: int)
    requires ZoomLevel(zoom)
    ensures ZoomLevel(ZoomedIn(zoom)) && ZoomLevel(ZoomedOut(zoom))
    ensures ZoomedIn(zoom) >= zoom && ZoomedOut(zoom) <= zoom
  {
  }

  /** Zooming in and back out returns to the same level, except from the
      top, where zooming in does nothing; likewise the other way round. */
  lemma ZoomRoundTrip(zoom: int)
    requires ZoomLevel(zoom)
    ensures zoom < MaxZoom ==> ZoomedOut(ZoomedIn(zoom)) == zoom
    ensures zoom > MinZoom ==> ZoomedIn(ZoomedOut(zoom)) == zoom
    ensures ZoomedIn(MaxZoom) == MaxZoom && ZoomedOut(MinZoom) == MinZoom
  {
  }

  lemma RotationStaysQuarter(rotation: int)
    requires QuarterTurn(rotation)
    ensures QuarterTurn(Rotated(rotation)) && Rotated(rotation) != rotation
  {
  }

  /** Four presses of the rotate button come back to the start. */
  lemma FourRotations(rotation: int)
    requires QuarterTurn(rotation)
    ensures Rotated(Rotated(Rotated(Rotated(rotation)))) == rotation
  {
  }

  datatype Button = ZoomInButton | ZoomOutButton | RotateButton

  /** The (zoom, rotation) pair after pressing each of `presses` in turn. */
  function Pressed(zoom: int, rotation: int, presses: seq<Button>): (int, int)
    decreases |presses|
  {
    if presses == [] then (zoom, rotation)
    else
      match presses[0]
      case ZoomInButton => Pressed(ZoomedIn(zoom), rotation, presses[1..])
      case ZoomOutButton => Pressed(ZoomedOut(zoom), rotation, presses[1..])
      case RotateButton => Pressed(zoom, Rotated(rotation), presses[1..])
  }

  /** From the reset view (100%, upright), any run of button presses keeps
      the zoom a multiple of 25 in [25, 200] and the rotation a quarter turn. */
  lemma {:induction false} PressesStayValid(zoom: int, rotation: int, presses: seq<Button>)
    requires ZoomLevel(zoom) && QuarterTurn(rotation)
    ensures ZoomLevel(Pressed(zoom, rotation, presses).0) && QuarterTurn(Pressed(zoom, rotation, presses).1)
    decreases |presses|
  {
    if presses != [] {
      ZoomStaysLevel(zoom);
      RotationStaysQuarter(rotation);
      match presses[0]
      case ZoomInButton => PressesStayValid(ZoomedIn(zoom), rotation, presses[1..]);
      case ZoomOutButton => PressesStayValid(ZoomedOut(zoom), rotation, presses[1..]);
      case RotateButton => PressesStayValid(zoom, Rotated(rotation), presses[1..]);
    }
  }

  lemma ResetViewStaysValid(presses: seq<Button>)
    ensures ZoomLevel(Pressed(100, 0, presses).0) && QuarterTurn(Pressed(100, 0, presses).1)
  {
    PressesStayValid(100, 0, presses);
  }

  /** What `renderFileContent` shows. */
  datatype PreviewKind = NoContent | LoadingView | PdfView | ImageView | FallbackView

  /** `renderFileContent()`: nothing without a file, the spinner while
      loading, then PDF, image or the fallback card by MIME type; a folder
      gets the fallback. */
  function Preview(file: Option<Item>, isLoading: bool): (r: PreviewKind)
    ensures file.None? <==> r == NoContent
    ensures file.Some? && isLoading <==> r == LoadingView
    ensures r == PdfView <==> file.Some? && !isLoading && file.value.File? && file.value.mimeType == "application/pdf"
    ensures r == ImageView <==> (file.Some? && !isLoading && file.value.File? &&
      file.value.mimeType != "application/pdf" && StartsWith(file.value.mimeType, "image/"))
  {
    if file.None? then NoContent
    else if isLoading then LoadingView
    else if file.value.File? && file.value.mimeType == "application/pdf" then PdfView
    else if file.value.File? && StartsWith(file.value.mimeType, "image/") then ImageView
    else FallbackView
  }

  /** The zoom and rotate buttons appear for images and PDFs only. */
  predicate HasControls(file: Item) {
    file.File? && (StartsWith(file.mimeType, "image/") || file.mimeType == "application/pdf")
  }

  /** Once loaded, a file with controls is shown as a PDF or an image, and
      a file without them gets the fallback card. */
  lemma ControlsMatchPreview(file: Item)
    ensures HasControls(file) <==> Preview(Some(file), false) in {PdfView, ImageView}
  {
  }

  class PreviewModal {
    var zoom: int
    var rotation: int
    var isLoading: bool

    /** The buttons' reachable states. */
    predicate Valid()
      reads this
    {
      ZoomLevel(zoom) && QuarterTurn(rotation)
    }

    /** `useState(100)`, `useState(0)`, `useState(true)`. */
    constructor()
      ensures zoom == 100 && rotation == 0 && isLoading
      ensures Valid()
    {
      zoom := 100;
      rotation := 0;
      isLoading := true;
    }

    /** The open effect: opening a file shows the spinner and resets the
        view; without an open file nothing changes. */
    method Open(isOpen: bool, file: Option<Item>)
      requires Valid()
      modifies this
      ensures isOpen && file.Some? ==> zoom == 100 && rotation == 0 && isLoading
      ensures !(isOpen && file.Some?) ==> zoom == old(zoom) && rotation == old(rotation) && isLoading == old(isLoading)
      ensures Valid()
    {
      if isOpen && file.Some? {
        isLoading := true;
        zoom := 100;
        rotation := 0;
      }
    }

    /** The loading timer firing. */
    method FinishLoading()
      modifies this`isLoading
      ensures !isLoading
    {
      isLoading := false;
    }

    method ZoomIn()
      requires Valid()
      modifies this`zoom
      ensures zoom == ZoomedIn(old(zoom)) && Valid()
    {
      ZoomStaysLevel(zoom);
      zoom := ZoomedIn(zoom);
    }

    method ZoomOut()
      requires Valid()
      modifies this`zoom
      ensures zoom == ZoomedOut(old(zoom)) && Valid()
    {
      ZoomStaysLevel(zoom);
      zoom := ZoomedOut(zoom);
    }

    method Rotate()
      requires Valid()
      modifies this`rotation
      ensures rotation == Rotated(old(rotation)) && Valid()
    {
      RotationStaysQuarter(rotation);
      rotation := Rotated(rotation);
    }
  }
}
