/**
 * The site-wide interaction state: the pointer indicator's view mode and the full-screen menu
 * overlay, with the constant cursor-variant table, the glyph the indicator shows and the menu's
 * entries.
 */
module UI {
  import opened Types

  // ---------------------------------------------------------------------------
  // The cursor variants
  // ---------------------------------------------------------------------------

  /** Fill of the indicator; `Accent` is the site's accent colour. */
  datatype Fill = White | Accent | Transparent

  datatype Blend = Difference | Normal

  /**
   * One entry of the variant table: size and offset in pixels, fill, optional blend mode and
   * opacity, and whether a 2px accent border is drawn.
   */
  datatype CursorStyle = CursorStyle(
    height: int, width: int, x: int, y: int,
    fill: Fill, blend: Option<Blend>, opacity: Option<real>, accentBorder: bool)

  /**
   * The variant the indicator animates to in each mode. Every variant is a square whose
   * offset is minus half its side in both directions, so it stays centred on the pointer.
   */
  function Variant(m: ViewMode): (v: CursorStyle)
    ensures v.width == v.height > 0
    ensures v.x == v.y && 2 * v.x == -v.width
    ensures v.fill == Accent <==> m == View
    ensures v.accentBorder <==> m == Drag || m == Play
  {
    match m
    case Default => CursorStyle(16, 16, -8, -8, White, Some(Difference), None, false)
    case View => CursorStyle(64, 64, -32, -32, Accent, Some(Normal), Some(0.8), false)
    case Drag => CursorStyle(48, 48, -24, -24, Transparent, None, None, true)
    case Play => CursorStyle(64, 64, -32, -32, Transparent, None, None, true)
  }

  /** What can be drawn inside the indicator. */
  datatype Glyph = ViewLabel | Arrow | Triangle

  /**
   * The glyphs drawn inside the indicator: three independent conditions on the mode, so at
   * most one glyph, the "View" label only in `View`, the arrow only in `Drag`, the triangle
   * only in `Play`, and nothing in `Default`.
   */
  function Glyphs(m: ViewMode): (g: seq<Glyph>)
    ensures |g| <= 1
    ensures ViewLabel in g <==> m == View
    ensures Arrow in g <==> m == Drag
    ensures Triangle in g <==> m == Play
    ensures g == [] <==> m == Default
  {
    (if m == View then [ViewLabel] else []) +
    (if m == Drag then [Arrow] else []) +
    (if m == Play then [Triangle] else [])
  }

  // ---------------------------------------------------------------------------
  // The menu
  // ---------------------------------------------------------------------------

  datatype MenuItem = MenuItem(caption: string, path: string)

  /** The overlay's links: five entries in a fixed order, no two leading to the same path. */
  function MenuItems(): (items: seq<MenuItem>)
    ensures |items| == 5
    ensures items[0].path == "/" && items[4].path == "/admin"
    ensures forall i, j :: 0 <= i < j < |items| ==> items[i].path != items[j].path
  {
    [ MenuItem("Dashboard", "/"),
      MenuItem("Portfolio", "/portfolio"),
      MenuItem("About", "/about"),
      MenuItem("Contact", "/contact"),
      MenuItem("Creator Area", "/admin") ]
  }

  // ---------------------------------------------------------------------------
  // The shared state
  // ---------------------------------------------------------------------------

  /** The two values every component can read and overwrite. */
  class UIState {
    var viewMode: ViewMode
    var isMenuOpen: bool

    /** What the pointer indicator currently animates to. */
    function CursorTarget(): CursorStyle
      reads this
    {
      Variant(viewMode)
    }

    /** What the pointer indicator currently draws inside itself. */
    function CursorGlyphs(): seq<Glyph>
      reads this
    {
      Glyphs(viewMode)
    }

    /** Start-up: the plain pointer and a closed menu. */
    constructor ()
      ensures viewMode == Default && !isMenuOpen
      ensures CursorGlyphs() == []
    {
      viewMode := Default;
      isMenuOpen := false;
    }

    /** `setViewMode`: the last write wins, whatever the mode was. */
    method SetViewMode(m: ViewMode)
      modifies this
      ensures viewMode == m && isMenuOpen == old(isMenuOpen)
      ensures CursorTarget() == Variant(m)
    {
      viewMode := m;
    }

    /** `setMenuOpen`. */
    method SetMenuOpen(open: bool)
      modifies this
      ensures isMenuOpen == open && viewMode == old(viewMode)
    {
      isMenuOpen := open;
    }

    /** The header's menu button: flips the overlay. */
    method ToggleMenu()
      modifies this
      ensures isMenuOpen == !old(isMenuOpen) && viewMode == old(viewMode)
    {
      SetMenuOpen(!isMenuOpen);
    }

    /** The effect run on every location change: the menu closes whatever its state. */
    method LocationChanged()
      modifies this
      ensures !isMenuOpen && viewMode == old(viewMode)
    {
      SetMenuOpen(false);
    }
  }

  /** Two presses of the menu button restore the overlay's state. */
  method PressMenuTwice(ui: UIState)
    modifies ui
    ensures ui.isMenuOpen == old(ui.isMenuOpen) && ui.viewMode == old(ui.viewMode)
  {
    ui.ToggleMenu();
    ui.ToggleMenu();
  }

  /** Opening the menu and then navigating leaves it closed. */
  method OpenThenNavigate(ui: UIState)
    modifies ui
    ensures !ui.isMenuOpen && ui.viewMode == old(ui.viewMode)
  {
    ui.SetMenuOpen(true);
    ui.LocationChanged();
  }
}
