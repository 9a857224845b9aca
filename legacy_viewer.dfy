/**
 * The first-generation viewer page (src/js/pannellum.js): a field of view and a
 * latitude/longitude that the mouse, the wheel and the keyboard change, with the
 * field of view kept in [35, 105] by the wheel and in [40, 100] by the zoom
 * keys, and the latitude clamped to [-85, 85] on every render; plus the page's
 * reading of its address (getURLParameter) and the licence code table.
 *
 * Numbers are JavaScript doubles; the model takes them as reals, so rounding is
 * not modelled. Camera, renderer and DOM updates are left out; render keeps
 * only its latitude clamp.
 */
module LegacyViewer {
  import opened Wrappers
  import opened Strings

  /** The wheel's field-of-view bounds. */
  const WheelFovMin: real := 35.0
  const WheelFovMax: real := 105.0
  /** The zoom keys' field-of-view bounds. */
  const ZoomFovMin: real := 40.0
  const ZoomFovMax: real := 100.0
  /** render's latitude bound. */
  const LatLimit: real := 85.0

  /** x brought into [lo, hi] (Math.max(lo, Math.min(hi, x)) and the if/else-if clamps). */
  function Clamp(lo: real, hi: real, x: real): (r: real)
    requires lo <= hi
    ensures lo <= r <= hi
    ensures lo <= x <= hi ==> r == x
    ensures x < lo ==> r == lo
    ensures x > hi ==> r == hi
  {
    if x < lo then lo else if x > hi then hi else x
  }

  /** The latitude render leaves behind. */
  function ClampLat(lat: real): real
  {
    Clamp(-LatLimit, LatLimit, lat)
  }

  /** Clamping twice is clamping once, so the repeated renders of animate agree with the first. */
  lemma ClampLatIdempotent(lat: real)
    ensures ClampLat(ClampLat(lat)) == ClampLat(lat)
    ensures -LatLimit <= lat <= LatLimit <==> ClampLat(lat) == lat
  {
  }

  /** zoomIn: five degrees narrower when fov >= 40, then clamped to [40, 100]. */
  function ZoomInFov(fov: real): (r: real)
    ensures ZoomFovMin <= r <= ZoomFovMax
  {
    Clamp(ZoomFovMin, ZoomFovMax, if fov >= 40.0 then fov - 5.0 else fov)
  }

  /** zoomOut: five degrees wider when fov <= 100, then clamped to [40, 100]. */
  function ZoomOutFov(fov: real): (r: real)
    ensures ZoomFovMin <= r <= ZoomFovMax
  {
    Clamp(ZoomFovMin, ZoomFovMax, if fov <= 100.0 then fov + 5.0 else fov)
  }

  /** Zooming out undoes zooming in, and the other way round, wherever neither hits a bound. */
  lemma ZoomRoundTrip(fov: real)
    ensures 45.0 <= fov <= 100.0 ==> ZoomOutFov(ZoomInFov(fov)) == fov
    ensures 40.0 <= fov <= 95.0 ==> ZoomInFov(ZoomOutFov(fov)) == fov
  {
  }

  /**
   * Zooming in never widens the view from a field of view the zoom keys allow,
   * but from one below 40 (which the wheel allows, down to 35) it widens it to 40.
   */
  lemma ZoomInDirection(fov: real)
    ensures ZoomInFov(fov) <= fov <==> fov >= ZoomFovMin
    ensures ZoomOutFov(fov) >= fov <==> fov <= ZoomFovMax
  {
  }

  /**
   * A wheel event's delta fields; an absent field is 0, and both are falsy.
   * (wheelDeltaY from WebKit, wheelDelta from Opera and IE 9, detail from Firefox.)
   */
  datatype WheelEvent = WheelEvent(wheelDeltaY: real, wheelDelta: real, detail: real)

  /** The wheel's change to fov: the first non-zero delta field decides. */
  function WheelChange(e: WheelEvent): real
  {
    if e.wheelDeltaY != 0.0 then -e.wheelDeltaY * 0.05
    else if e.wheelDelta != 0.0 then -e.wheelDelta * 0.05
    else e.detail * 1.5
  }

  /** onDocumentMouseWheel: fov moves only from inside [35, 105], and always ends inside it. */
  function WheelFov(fov: real, e: WheelEvent): (r: real)
    ensures WheelFovMin <= r <= WheelFovMax
    ensures WheelFovMin <= fov <= WheelFovMax && WheelFovMin <= fov + WheelChange(e) <= WheelFovMax ==>
      r == fov + WheelChange(e)
    ensures WheelFovMin <= fov <= WheelFovMax && fov + WheelChange(e) < WheelFovMin ==> r == WheelFovMin
    ensures WheelFovMin <= fov <= WheelFovMax && fov + WheelChange(e) > WheelFovMax ==> r == WheelFovMax
    ensures !(WheelFovMin <= fov <= WheelFovMax) ==> r == Clamp(WheelFovMin, WheelFovMax, fov)
  {
    Clamp(WheelFovMin, WheelFovMax, if WheelFovMin <= fov <= WheelFovMax then fov + WheelChange(e) else fov)
  }

  /** An event with no delta at all leaves an in-range fov where it is. */
  lemma WheelNoDelta(fov: real)
    requires WheelFovMin <= fov <= WheelFovMax
    ensures WheelFov(fov, WheelEvent(0.0, 0.0, 0.0)) == fov
  {
  }

  /** A key event: which, and the handler's event.keycode (browsers name it keyCode, so it is usually absent). */
  datatype KeyEvent = KeyEvent(which: int, keycode: Option<int>)

  /** keynumber: which when it is non-zero, the keycode property otherwise. */
  function KeyNumber(e: KeyEvent): Option<int>
  {
    if e.which != 0 then Some(e.which) else e.keycode
  }

  /** Minus, '-' and Ctrl zoom out. */
  predicate IsZoomOutKey(k: Option<int>)
  {
    k == Some(109) || k == Some(189) || k == Some(17)
  }

  /** Plus, '=' and Shift zoom in. */
  predicate IsZoomInKey(k: Option<int>)
  {
    k == Some(107) || k == Some(187) || k == Some(16)
  }

  /** No key both zooms in and zooms out, and Escape does neither. */
  lemma KeysDisjoint(k: Option<int>)
    ensures !(IsZoomOutKey(k) && IsZoomInKey(k))
    ensures k == Some(27) ==> !IsZoomOutKey(k) && !IsZoomInKey(k)
  {
  }

  /** The page's view state: the globals the event handlers share. */
  class Viewer {
    var fov: real
    var lat: real
    var lon: real
    var isUserInteracting: bool
    /** Where the mouse was when the drag began, and the view then. */
    var downMouseX: real
    var downMouseY: real
    var downLon: real
    var downLat: real
    var fullWindowActive: bool
    /** Set once from the popout parameter when the page loads. */
    const popoutmode: bool

    /** The page's initial globals: fov 70, looking at latitude and longitude 0, nothing held. */
    constructor (popoutmode: bool)
      ensures fov == 70.0 && lat == 0.0 && lon == 0.0
      ensures !isUserInteracting && !fullWindowActive && this.popoutmode == popoutmode
      ensures downMouseX == 0.0 && downMouseY == 0.0 && downLon == 0.0 && downLat == 0.0
      ensures Valid()
    {
      fov := 70.0;
      lat := 0.0;
      lon := 0.0;
      isUserInteracting := false;
      downMouseX, downMouseY, downLon, downLat := 0.0, 0.0, 0.0, 0.0;
      fullWindowActive := false;
      this.popoutmode := popoutmode;
    }

    /** What every handler keeps: fov within the wheel's bounds and lat within render's. */
    predicate Valid()
      reads this
    {
      WheelFovMin <= fov <= WheelFovMax && -LatLimit <= lat <= LatLimit
    }

    /** render: the latitude is clamped to [-85, 85] before the camera target is computed. */
    method Render()
      modifies this`lat
      ensures lat == ClampLat(old(lat))
      ensures -LatLimit <= lat <= LatLimit
    {
      lat := if lat < -LatLimit then -LatLimit else if lat > LatLimit then LatLimit else lat;
    }

    /** onDocumentMouseDown: a drag starts, remembering the mouse position and the view. */
    method MouseDown(clientX: real, clientY: real)
      requires Valid()
      modifies this`isUserInteracting, this`downMouseX, this`downMouseY, this`downLon, this`downLat
      ensures isUserInteracting
      ensures downMouseX == clientX && downMouseY == clientY && downLon == lon && downLat == lat
      ensures Valid()
    {
      isUserInteracting := true;
      downMouseX := clientX;
      downMouseY := clientY;
      downLon := lon;
      downLat := lat;
    }

    /**
     * onDocumentMouseMove: while a drag is on, the view follows the mouse at a
     * tenth of a degree per pixel from where the drag began, and animate renders it
     * (clamping lat); otherwise nothing changes.
     */
    method MouseMove(clientX: real, clientY: real)
      requires Valid()
      modifies this`lon, this`lat
      ensures isUserInteracting ==>
        lon == (downMouseX - clientX) * 0.1 + downLon &&
        lat == ClampLat((clientY - downMouseY) * 0.1 + downLat)
      ensures !isUserInteracting ==> lon == old(lon) && lat == old(lat)
      ensures Valid()
    {
      if isUserInteracting {
        lon := (downMouseX - clientX) * 0.1 + downLon;
        lat := (clientY - downMouseY) * 0.1 + downLat;
        Render();
      }
    }

    /** onDocumentMouseUp: the drag ends. */
    method MouseUp()
      requires Valid()
      modifies this`isUserInteracting
      ensures !isUserInteracting
      ensures Valid()
    {
      isUserInteracting := false;
    }

    /** onDocumentMouseWheel: fov as WheelFov says, then a render. */
    method MouseWheel(e: WheelEvent)
      modifies this`fov, this`lat
      ensures fov == WheelFov(old(fov), e)
      ensures lat == ClampLat(old(lat))
      ensures Valid()
    {
      if fov >= 35.0 && fov <= 105.0 {
        if e.wheelDeltaY != 0.0 {
          fov := fov - e.wheelDeltaY * 0.05;
        } else if e.wheelDelta != 0.0 {
          fov := fov - e.wheelDelta * 0.05;
        } else if e.detail != 0.0 {
          fov := fov + e.detail * 1.5;
        }
      }
      if fov < 35.0 {
        fov := 35.0;
      } else if fov > 105.0 {
        fov := 105.0;
      }
      Render();
    }

    /** zoomIn: narrows and renders only from fov >= 40; the clamp applies either way. */
    method ZoomIn()
      modifies this`fov, this`lat
      ensures fov == ZoomInFov(old(fov))
      ensures lat == if old(fov) >= 40.0 then ClampLat(old(lat)) else old(lat)
    {
      if fov >= 40.0 {
        fov := fov - 5.0;
        Render();
      }
      if fov < 40.0 {
        fov := 40.0;
      } else if fov > 100.0 {
        fov := 100.0;
      }
    }

    /** zoomOut: widens and renders only from fov <= 100; the clamp applies either way. */
    method ZoomOut()
      modifies this`fov, this`lat
      ensures fov == ZoomOutFov(old(fov))
      ensures lat == if old(fov) <= 100.0 then ClampLat(old(lat)) else old(lat)
    {
      if fov <= 100.0 {
        fov := fov + 5.0;
        Render();
      }
      if fov < 40.0 {
        fov := 40.0;
      } else if fov > 100.0 {
        fov := 100.0;
      }
    }

    /**
     * onDocumentKeyPress: zoom-out keys zoom out, zoom-in keys zoom in, and Escape
     * asks for toggleFullWindow (toggled) only in full-window or popout mode.
     */
    method KeyPress(e: KeyEvent) returns (toggled: bool)
      requires Valid()
      modifies this`fov, this`lat
      ensures IsZoomOutKey(KeyNumber(e)) ==> fov == ZoomOutFov(old(fov))
      ensures IsZoomInKey(KeyNumber(e)) ==> fov == ZoomInFov(old(fov))
      ensures !IsZoomOutKey(KeyNumber(e)) && !IsZoomInKey(KeyNumber(e)) ==> fov == old(fov)
      ensures lat == old(lat)
      ensures toggled <==> KeyNumber(e) == Some(27) && (fullWindowActive || popoutmode)
      ensures Valid()
    {
      var keynumber := e.keycode;
      if e.which != 0 {
        keynumber := Some(e.which);
      }
      if keynumber == Some(109) || keynumber == Some(189) || keynumber == Some(17) {
        ZoomOut();
      }
      if keynumber == Some(107) || keynumber == Some(187) || keynumber == Some(16) {
        ZoomIn();
      }
      toggled := false;
      if keynumber == Some(27) {
        if fullWindowActive || popoutmode {
          toggled := true;
        }
      }
    }

    /** onFullScreenChange: full-window mode follows the browser's full-screen state. */
    method FullScreenChange(isFullScreen: bool)
      requires Valid()
      modifies this`fullWindowActive
      ensures fullWindowActive == isFullScreen
      ensures Valid()
    {
      fullWindowActive := isFullScreen;
    }
  }

  /** The licence codes 0 to 5 as Creative Commons licence types. */
  function LicenseType(code: Option<int>): (r: Option<string>)
    ensures r.Some? <==> code.Some? && 0 <= code.value <= 5
    ensures r.Some? ==> |r.value| >= 2 && r.value[..2] == "by"
  {
    match code
    case None => None
    case Some(n) =>
      match n
      case 0 => Some("by")
      case 1 => Some("by-sa")
      case 2 => Some("by-nd")
      case 3 => Some("by-nc")
      case 4 => Some("by-nc-sa")
      case 5 => Some("by-nc-nd")
      case _ => None
  }

  /** Different codes give different licences. */
  lemma LicenseTypeInjective(a: int, b: int)
    requires LicenseType(Some(a)).Some? && LicenseType(Some(b)) == LicenseType(Some(a))
    ensures a == b
  {
  }

  /** The licence link; an unknown code leaves licenseType undefined, which prints as "undefined". */
  function LicenseLink(code: Option<int>): string
  {
    var t := match LicenseType(code) case Some(t) => t case None => "undefined";
    "http://creativecommons.org/licenses/" + t + "/3.0/"
  }

  /** The leading white space parseInt skips (space, tab, line feed, carriage return). */
  predicate IsSpace(c: char)
  {
    c == ' ' || c == '\t' || c == '\n' || c == '\r'
  }

  predicate IsHexDigit(c: char)
  {
    IsDigit(c) || 'a' <= c <= 'f' || 'A' <= c <= 'F'
  }

  function HexDigitValue(c: char): (d: nat)
    requires IsHexDigit(c)
    ensures d < 16
  {
    if IsDigit(c) then DigitValue(c)
    else if 'a' <= c <= 'f' then (c as int) - ('a' as int) + 10
    else (c as int) - ('A' as int) + 10
  }

  function HexValue(s: string): nat
    requires forall k :: 0 <= k < |s| ==> IsHexDigit(s[k])
    decreases |s|
  {
    if s == [] then 0 else 16 * HexValue(s[..|s| - 1]) + HexDigitValue(s[|s| - 1])
  }

  /** The longest prefix of s whose characters all satisfy p. */
  function TakeWhile(s: string, p: char -> bool): (r: string)
    ensures r <= s
    ensures forall k :: 0 <= k < |r| ==> p(r[k])
    ensures |r| < |s| ==> !p(s[|r|])
    decreases |s|
  {
    if s == [] || !p(s[0]) then [] else [s[0]] + TakeWhile(s[1..], p)
  }

  /** s without its leading white space. */
  function TrimStart(s: string): (r: string)
    ensures |r| <= |s| && r == s[|s| - |r|..]
    ensures r == [] || !IsSpace(r[0])
    ensures forall k :: 0 <= k < |s| - |r| ==> IsSpace(s[k])
    decreases |s|
  {
    if s != [] && IsSpace(s[0]) then
      var t := s[1..];
      var r := TrimStart(t);
      assert t[|t| - |r|..] == s[|s| - |r|..];
      assert forall k :: 0 <= k < |s| - |r| ==> IsSpace(s[k]) by {
        forall k | 0 <= k < |s| - |r|
          ensures IsSpace(s[k])
        {
          if k > 0 {
            assert s[k] == t[k - 1];
          }
        }
      }
      r
    else
      s
  }

  /**
   * parseInt with no radix: leading white space, an optional sign, then a hexadecimal
   * number after 0x or 0X, or else a decimal one; the longest run of digits counts,
   * and no digit at all is NaN (None).
   */
  function ParseInt(s: string): (r: Option<int>)
    ensures (forall k :: 0 <= k < |s| ==> !IsDigit(s[k])) ==> r.None?
    ensures r.Some? && r.value < 0 ==> '-' in s
  {
    var t := TrimStart(s);
    var negative := t != [] && t[0] == '-';
    var u := if t != [] && (t[0] == '-' || t[0] == '+') then t[1..] else t;
    var magnitude :=
      if |u| >= 2 && u[0] == '0' && (u[1] == 'x' || u[1] == 'X') then
        var h := TakeWhile(u[2..], IsHexDigit);
        if h == [] then None else Some(HexValue(h))
      else
        var d := TakeWhile(u, IsDigit);
        if d == [] then None else Some(ParseDigits(d));
    match magnitude
    case None => None
    case Some(m) => Some(if negative then -(m as int) else m as int)
  }

  /** A string whose characters all satisfy p is its own longest such prefix; a following character that fails p ends it. */
  lemma {:induction false} TakeWhileStops(s: string, rest: string, p: char -> bool)
    requires forall k :: 0 <= k < |s| ==> p(s[k])
    requires rest == [] || !p(rest[0])
    ensures TakeWhile(s + rest, p) == s
    decreases |s|
  {
    if s != [] {
      assert (s + rest)[1..] == s[1..] + rest;
      TakeWhileStops(s[1..], rest, p);
      assert [s[0]] + s[1..] == s;
    }
  }

  /** parseInt reads back a decimal rendering. */
  lemma ParseIntNatToString(n: nat)
    ensures ParseInt(NatToString(n)) == Some(n)
  {
    var s := NatToString(n);
    assert IsDigit(s[0]);
    assert TrimStart(s) == s;
    assert s + [] == s;
    TakeWhileStops(s, [], IsDigit);
    if |s| >= 2 {
      assert IsDigit(s[1]);
    }
    ParseNatToString(n);
  }

  /** A license parameter written as the code's digits selects that code's licence. */
  lemma LicenseFromParameter(n: nat)
    requires n <= 5
    ensures LicenseType(ParseInt(NatToString(n))).Some?
    ensures LicenseType(ParseInt(NatToString(n))) == LicenseType(Some(n))
  {
    ParseIntNatToString(n);
  }

  /** The parameter names the page asks for: plain words, which the pattern matches literally. */
  predicate PlainName(name: string)
  {
    forall k :: 0 <= k < |name| ==> 'a' <= name[k] <= 'z' || 'A' <= name[k] <= 'Z' || IsDigit(name[k])
  }

  /** `[?&]name=` starts at position p of the address. */
  predicate ParamAt(href: string, name: string, p: int)
  {
    0 <= p && p + |name| + 2 <= |href| &&
    (href[p] == '?' || href[p] == '&') && href[p + 1..p + 1 + |name|] == name && href[p + 1 + |name|] == '='
  }

  /** The leftmost match at or after from. */
  function FindParam(href: string, name: string, from: nat): (r: Option<nat>)
    ensures r.None? <==> forall p :: from <= p < |href| ==> !ParamAt(href, name, p)
    ensures r.Some? ==> from <= r.value && ParamAt(href, name, r.value)
    ensures r.Some? ==> forall p :: from <= p < r.value ==> !ParamAt(href, name, p)
    decreases |href| - from
  {
    if from >= |href| then None
    else if ParamAt(href, name, from) then Some(from)
    else FindParam(href, name, from + 1)
  }

  predicate NotValueEnd(c: char)
  {
    c != '&' && c != '#'
  }

  /**
   * getURLParameter on the unescaped address: the text after the leftmost
   * `?name=` or `&name=`, up to the next '&' or '#', or "" when there is none.
   */
  function GetURLParameter(href: string, name: string): (r: string)
    requires PlainName(name)
    ensures (forall p :: 0 <= p < |href| ==> !ParamAt(href, name, p)) ==> r == ""
    ensures forall k :: 0 <= k < |r| ==> r[k] != '&' && r[k] != '#'
  {
    match FindParam(href, name, 0)
    case None => ""
    case Some(p) => TakeWhile(href[p + |name| + 2..], NotValueEnd)
  }

  /** The leftmost `?name=` is found where base, lacking '?' and '&', ends. */
  lemma ParamFoundAfter(base: string, name: string, tail: string)
    requires '?' !in base && '&' !in base
    ensures FindParam(base + "?" + name + "=" + tail, name, 0) == Some(|base|)
  {
    var href := base + "?" + name + "=" + tail;
    var p := |base|;
    assert href[p + 1..p + 1 + |name|] == name;
    assert ParamAt(href, name, p);
    forall q | 0 <= q < p
      ensures !ParamAt(href, name, q)
    {
      assert href[q] == base[q];
    }
    var r := FindParam(href, name, 0);
    assert r.Some?;
    assert !(r.value < p);
    assert !(r.value > p);
  }

  /** A parameter written into an address without '?' or '&' is read back. */
  lemma GetURLParameterRoundTrip(base: string, name: string, value: string, rest: string)
    requires PlainName(name)
    requires '?' !in base && '&' !in base
    requires '&' !in value && '#' !in value
    requires rest == [] || rest[0] == '&' || rest[0] == '#'
    ensures GetURLParameter(base + "?" + name + "=" + value + rest, name) == value
  {
    var href := base + "?" + name + "=" + value + rest;
    assert href == base + "?" + name + "=" + (value + rest);
    ParamFoundAfter(base, name, value + rest);
    assert href[|base| + |name| + 2..] == value + rest;
    TakeWhileStops(value, rest, NotValueEnd);
  }
}
