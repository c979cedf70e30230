// Notions that several modules of the model share.
module Common {
  /** Time from one reading of a clock to another, in nanoseconds and never below zero. */
  function Elapsed(since: nat, now: nat): nat {
    if now < since then 0 else now - since
  }

  /** A terminal cell in pixels. */
  datatype CellSize = CellSize(w: nat, h: nat) {
    predicate Positive() {
      w > 0 && h > 0
    }
  }

  /** Unicode's White_Space property of a code point. */
  predicate IsWhitespace(code: int) {
    || 9 <= code <= 13 || code == 32 || code == 0x85 || code == 0xA0 || code == 0x1680 || 0x2000 <= code <= 0x200A
    || code == 0x2028 || code == 0x2029 || code == 0x202F || code == 0x205F || code == 0x3000
  }
}
