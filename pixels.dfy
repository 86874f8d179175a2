/**
 * The pixel record exchanged by every component (backend/server.go) and the
 * validation run on it before it may enter the pipeline.
 */
module Pixels {
  import opened Wrappers

  /** Largest valid coordinate on either axis: the canvas is 1000 x 1000. */
  const GridMax: int := 999

  /** One pixel change; `timestamp` is in milliseconds since the Unix epoch. */
  datatype PixelUpdate = PixelUpdate(x: int, y: int, color: string, userId: string, timestamp: int)

  /** A failed validation, carrying the message returned to the HTTP caller. */
  datatype ValidationError = ValidationError(message: string)

  const XRangeError := ValidationError("x coordinate must be between 0 and 999")
  const YRangeError := ValidationError("y coordinate must be between 0 and 999")
  const ColorFormatError := ValidationError("color must be in #RRGGBB format")
  const MissingUserError := ValidationError("userId is required")

  /** The character class `[0-9A-Fa-f]`. */
  predicate IsHexDigit(c: char) {
    ('0' <= c <= '9') || ('A' <= c <= 'F') || ('a' <= c <= 'f')
  }

  /** Matches `[0-9A-Fa-f]{k}$` at the start of `s`: exactly k hex digits, then the end. */
  function MatchHexRun(s: string, k: nat): (r: bool)
    ensures r <==> |s| == k && forall i :: 0 <= i < k ==> IsHexDigit(s[i])
    decreases k
  {
    if k == 0 then s == []
    else s != [] && IsHexDigit(s[0]) && MatchHexRun(s[1..], k - 1)
  }

  /** The anchored pattern `^#[0-9A-Fa-f]{6}$` used for colours. */
  function MatchesHexColor(s: string): (r: bool)
    ensures r <==> |s| == 7 && s[0] == '#' && forall i :: 1 <= i < 7 ==> IsHexDigit(s[i])
  {
    s != [] && s[0] == '#' && MatchHexRun(s[1..], 6)
  }

  /**
   * Runs the checks in the order x, y, colour, user id and reports the first
   * that fails; None means the pixel is valid.
   */
  function ValidatePixel(p: PixelUpdate): (r: Option<ValidationError>)
    ensures r == None <==>
      0 <= p.x <= GridMax && 0 <= p.y <= GridMax && MatchesHexColor(p.color) && p.userId != ""
    ensures !(0 <= p.x <= GridMax) ==> r == Some(XRangeError)
    ensures 0 <= p.x <= GridMax && !(0 <= p.y <= GridMax) ==> r == Some(YRangeError)
    ensures 0 <= p.x <= GridMax && 0 <= p.y <= GridMax && !MatchesHexColor(p.color) ==>
      r == Some(ColorFormatError)
    ensures 0 <= p.x <= GridMax && 0 <= p.y <= GridMax && MatchesHexColor(p.color) && p.userId == "" ==>
      r == Some(MissingUserError)
  {
    if p.x < 0 || p.x > GridMax then Some(XRangeError)
    else if p.y < 0 || p.y > GridMax then Some(YRangeError)
    else if !MatchesHexColor(p.color) then Some(ColorFormatError)
    else if p.userId == "" then Some(MissingUserError)
    else None
  }

  /** Validation never looks at the timestamp, which the server assigns afterwards. */
  lemma ValidationIgnoresTimestamp(p: PixelUpdate, t: int)
    ensures ValidatePixel(p.(timestamp := t)) == ValidatePixel(p)
  {
  }
}
