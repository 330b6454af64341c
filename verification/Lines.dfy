/**
 Newlines in byte strings: where the last one is, which buffers a line-buffered writer may hold,
 and which part of an unsent tail is worth keeping.
 */
module Lines {
  import opened Streams

  /** One past the index of the last newline among the first n bytes of s, or 0. */
  function LastNewline(s: seq<byte>, n: nat): (k: nat)
    requires n <= |s|
    ensures k <= n
    ensures k > 0 ==> s[k - 1] == NEWLINE
    ensures forall i | k <= i < n :: s[i] != NEWLINE
  {
    if n == 0 || s[n - 1] == NEWLINE then n else LastNewline(s, n - 1)
  }

  /** The length of the complete lines that s starts with. */
  function LinesLen(s: seq<byte>): (n: nat)
    ensures n <= |s|
    ensures n > 0 ==> s[n - 1] == NEWLINE
    ensures forall i | n <= i < |s| :: s[i] != NEWLINE
  {
    LastNewline(s, |s|)
  }

  /** Whole lines and a trailing partial line are never buffered together. */
  ghost predicate Shape(buf: seq<byte>) {
    NEWLINE in buf ==> buf[|buf| - 1] == NEWLINE
  }

  /** What a buffer of the given capacity should keep of the unsent bytes rest: as much as fits,
      cut after its last newline if it holds one. */
  function Window(cap: nat, rest: seq<byte>): (w: seq<byte>)
    ensures w <= rest && |w| <= cap
  {
    var fits := rest[..Min(cap, |rest|)];
    var n := LinesLen(fits);
    if n > 0 then fits[..n] else fits
  }

  /** A window ends in the last newline that fits, or there is none and it is as long as it can be. */
  lemma WindowShape(cap: nat, rest: seq<byte>)
    ensures var w := Window(cap, rest);
            && Shape(w) && (NEWLINE in w || |w| == Min(cap, |rest|))
            && forall i | |w| <= i < Min(cap, |rest|) :: rest[i] != NEWLINE
  {
  }
}
