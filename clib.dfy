/**
 * The parts of the C standard library (ISO/IEC 9899:2011) whose exact
 * behaviour the converters depend on: `strstr` (section 7.24.5.7),
 * the truncation of `snprintf` (section 7.21.6.5), the chunking of
 * `fgets` (section 7.21.7.2) and the way `%s` stops at the first NUL byte.
 * Strings are `seq<char>` with one character per C `char`; file contents
 * are sequences of bytes.
 */
module CLib {

  type byte = x: int | 0 <= x < 256

  const NUL: byte := 0
  const NEWLINE: byte := 10
  const SPACE: byte := 32
  const COMMA: byte := 44

  datatype Option<T> = None | Some(value: T)

  function Min(a: int, b: int): int { if a <= b then a else b }

  // ---------------------------------------------------------------- strstr

  /** Whether `strstr` finds needle in haystack, as a scan from the left. */
  predicate Contains(haystack: string, needle: string)
    decreases |haystack|
  {
    needle <= haystack || (haystack != [] && Contains(haystack[1..], needle))
  }

  /** A needle longer than the haystack is never found. */
  lemma {:induction false} ShortHaystack(haystack: string, needle: string)
    requires |haystack| < |needle|
    ensures !Contains(haystack, needle)
    decreases |haystack|
  {
    if haystack != [] {
      ShortHaystack(haystack[1..], needle);
    }
  }

  /** The needle occurs in the haystack starting at position i. */
  ghost predicate OccursAt(haystack: string, needle: string, i: int)
  {
    0 <= i <= |haystack| - |needle| && haystack[i..i + |needle|] == needle
  }

  /** The scan finds the needle exactly when it occurs at some position. */
  lemma {:induction false} ContainsIffOccurs(haystack: string, needle: string)
    ensures Contains(haystack, needle) <==> exists i :: OccursAt(haystack, needle, i)
    decreases |haystack|
  {
    if needle <= haystack {
      assert OccursAt(haystack, needle, 0);
    } else if haystack == [] {
    } else {
      var tail := haystack[1..];
      ContainsIffOccurs(tail, needle);
      if Contains(tail, needle) {
        var i :| OccursAt(tail, needle, i);
        OccursShift(haystack, needle, i + 1);
      } else {
        forall i | 0 < i ensures !OccursAt(haystack, needle, i) {
          OccursShift(haystack, needle, i);
        }
      }
    }
  }

  /** Past the first byte, the needle occurs in the haystack where it occurs in the rest, one position on. */
  lemma OccursShift(haystack: string, needle: string, i: int)
    requires haystack != [] && 0 < i
    ensures OccursAt(haystack, needle, i) <==> OccursAt(haystack[1..], needle, i - 1)
  {
    if 0 <= i - 1 <= |haystack| - 1 - |needle| {
      assert haystack[i..i + |needle|] == haystack[1..][i - 1..i - 1 + |needle|];
    }
  }

  // --------------------------------------------------------------- snprintf

  /**
   * What `snprintf` leaves in a buffer of size bytes when the formatted
   * text is s: as much of s as fits before the terminating NUL.
   */
  function Snprintf(s: string, size: nat): (r: string)
    requires size >= 1
    ensures |r| == Min(|s|, size - 1) && r <= s
    ensures r == s <==> |s| < size
  {
    if |s| < size then s else s[..size - 1]
  }

  /** Decimal digits of a non-negative `%d` argument. */
  function DecimalString(n: nat): string
    decreases n
  {
    var digit := ["0123456789"[n % 10]];
    if n < 10 then digit else DecimalString(n / 10) + digit
  }

  // ------------------------------------------------------------ %s and NUL

  /** The bytes `%s` (or any C string function) sees in a buffer: everything before the first NUL. */
  function CutAtNul(s: seq<byte>): (r: seq<byte>)
    ensures r <= s
    ensures NUL !in r
    ensures |r| < |s| ==> s[|r|] == NUL
    ensures NUL in s <==> |r| < |s|
  {
    if s == [] || s[0] == NUL then [] else [s[0]] + CutAtNul(s[1..])
  }

  /** A buffer whose first NUL is at position k is read as its first k bytes. */
  lemma CutAtNulAt(s: seq<byte>, k: nat)
    requires k < |s| && s[k] == NUL && NUL !in s[..k]
    ensures CutAtNul(s) == s[..k]
  {
  }

  /** A NUL-terminated chunk in a larger buffer is read as the chunk cut at its own first NUL. */
  lemma CutAtNulOfTerminated(s: seq<byte>, k: nat)
    requires k < |s| && s[k] == NUL
    ensures CutAtNul(s) == CutAtNul(s[..k])
  {
    var c := CutAtNul(s[..k]);
    if |c| < k {
      assert s[..k][|c|] == s[|c|];
      CutAtNulAt(s, |c|);
      assert s[..|c|] == s[..k][..|c|];
    } else {
      assert s[..k] == c;
      CutAtNulAt(s, k);
    }
  }

  /** A NUL-free sequence is read in full. */
  lemma CutAtNulOfNulFree(s: seq<byte>)
    requires NUL !in s
    ensures CutAtNul(s) == s
  {
  }

  // ----------------------------------------------------------------- fgets

  /**
   * How many bytes one `fgets` call takes from a stream whose remaining
   * bytes are s, when it may store at most `limit` of them (the buffer
   * size less one for the NUL): it stops after a newline, at `limit`
   * bytes, or at end of file.
   */
  function LineLength(s: seq<byte>, limit: nat): (n: nat)
    ensures n <= limit && n <= |s|
    ensures limit > 0 && s != [] ==> n > 0
    ensures forall i :: 0 <= i < n - 1 ==> s[i] != NEWLINE
    ensures n == limit || n == |s| || (0 < n && s[n - 1] == NEWLINE)
    decreases limit
  {
    if limit == 0 || s == [] then 0
    else if s[0] == NEWLINE then 1
    else 1 + LineLength(s[1..], limit - 1)
  }

  /** The contract of LineLength determines it. */
  lemma LineLengthUnique(s: seq<byte>, limit: nat, n: nat)
    requires n <= limit && n <= |s|
    requires forall i :: 0 <= i < n - 1 ==> s[i] != NEWLINE
    requires n == limit || n == |s| || (0 < n && s[n - 1] == NEWLINE)
    ensures n == LineLength(s, limit)
  {
  }

  /**
   * The chunks that repeated `fgets` calls with a size-byte buffer read,
   * one per call, from a stream holding s, until end of file.
   */
  function Chunks(s: seq<byte>, size: nat): seq<seq<byte>>
    requires size >= 2
    decreases |s|
  {
    if s == [] then []
    else
      var n := LineLength(s, size - 1);
      [s[..n]] + Chunks(s[n..], size)
  }

  /** One step of the read loop: the first chunk is printed, then the rest of the stream. */
  lemma PrintedChunksStep(s: seq<byte>, size: nat)
    requires size >= 2 && s != []
    ensures var n := LineLength(s, size - 1);
      Printed(Chunks(s, size)) == CutAtNul(s[..n]) + Printed(Chunks(s[n..], size))
  {
    var n := LineLength(s, size - 1);
    assert Chunks(s, size) == [s[..n]] + Chunks(s[n..], size);
  }

  function Concat(cs: seq<seq<byte>>): seq<byte>
  {
    if cs == [] then [] else cs[0] + Concat(cs[1..])
  }

  /** Every chunk holds between 1 and size-1 bytes, and the chunks put back together are the stream. */
  lemma {:induction false} ChunksPartition(s: seq<byte>, size: nat)
    requires size >= 2
    ensures Concat(Chunks(s, size)) == s
    ensures forall c :: c in Chunks(s, size) ==> 0 < |c| < size
    decreases |s|
  {
    if s != [] {
      var n := LineLength(s, size - 1);
      ChunksPartition(s[n..], size);
      assert Chunks(s, size) == [s[..n]] + Chunks(s[n..], size);
      assert s == s[..n] + s[n..];
    }
  }

  /** What printing each chunk in turn with the `%s` format writes: each chunk up to its first NUL. */
  function Printed(cs: seq<seq<byte>>): seq<byte>
  {
    if cs == [] then [] else CutAtNul(cs[0]) + Printed(cs[1..])
  }

  lemma {:induction false} PrintedAppend(cs: seq<seq<byte>>, c: seq<byte>)
    ensures Printed(cs + [c]) == Printed(cs) + CutAtNul(c)
  {
    if cs != [] {
      assert (cs + [c])[1..] == cs[1..] + [c];
      PrintedAppend(cs[1..], c);
    } else {
      assert [c][1..] == [];
    }
  }

  /** Output written with `%s` never holds a NUL byte. */
  lemma {:induction false} PrintedNulFree(cs: seq<seq<byte>>)
    ensures NUL !in Printed(cs)
  {
    if cs != [] {
      PrintedNulFree(cs[1..]);
    }
  }

  /**
   * Re-emitting the fgets chunks of s with `%s` gives s back exactly when
   * s holds no NUL byte.
   */
  lemma {:induction false} PrintedChunksIff(s: seq<byte>, size: nat)
    requires size >= 2
    ensures Printed(Chunks(s, size)) == s <==> NUL !in s
    decreases |s|
  {
    PrintedNulFree(Chunks(s, size));
    if NUL !in s && s != [] {
      var n := LineLength(s, size - 1);
      assert s == s[..n] + s[n..];
      assert NUL !in s[n..];
      PrintedChunksIff(s[n..], size);
      CutAtNulOfNulFree(s[..n]);
    }
  }

  /** A buffer holding `read` starts with the next n bytes of the stream, followed by a NUL. */
  predicate Stored(read: seq<byte>, stream: seq<byte>, n: nat)
  {
    n <= |stream| && n < |read| && read[..n] == stream[..n] && read[n] == NUL
  }

  /**
   * What one successful `fgets` leaves in a buffer of `size` bytes: the
   * next chunk followed by a NUL. The buffer then reads as that chunk, and
   * printing it followed by the rest of the stream's chunks prints all of
   * the stream's chunks.
   */
  lemma FgetsChunk(rest: seq<byte>, size: nat, read: seq<byte>, n: nat)
    requires size >= 2 && rest != [] && n == LineLength(rest, size - 1) && Stored(read, rest, n)
    ensures Chunks(rest, size) == [rest[..n]] + Chunks(rest[n..], size)
    ensures CutAtNul(read) == CutAtNul(rest[..n])
    ensures Printed(Chunks(rest, size)) == CutAtNul(read) + Printed(Chunks(rest[n..], size))
  {
    CutAtNulOfTerminated(read, n);
    PrintedChunksStep(rest, size);
  }

  /**
   * `fgets` given the whole buffer as its size: copies the next chunk of the
   * stream into the buffer and terminates it with a NUL; reports false
   * at end of file, leaving the buffer alone. The stream is the sequence
   * of bytes not yet read; the caller drops the n bytes consumed.
   */
  method Fgets(buffer: array<byte>, stream: seq<byte>) returns (got: bool, n: nat)
    requires buffer.Length >= 2
    modifies buffer
    ensures got <==> stream != []
    ensures n == LineLength(stream, buffer.Length - 1)
    ensures got ==> Stored(buffer[..], stream, n)
    ensures got ==> buffer[n + 1..] == old(buffer[n + 1..])
    ensures !got ==> buffer[..] == old(buffer[..])
  {
    if stream == [] {
      return false, 0;
    }
    got := true;
    n := CopyLine(buffer, stream);
    ghost var copied := buffer[..];
    buffer[n] := NUL;
    assert buffer[..n] == copied[..n];
    assert buffer[n + 1..] == copied[n + 1..];
  }

  /**
   * The copying loop of `fgets`: bytes go into the buffer up to and
   * including the first newline, or until one byte short of its end, or
   * until the stream runs out.
   */
  method CopyLine(buffer: array<byte>, stream: seq<byte>) returns (n: nat)
    requires buffer.Length >= 2
    modifies buffer
    ensures n == LineLength(stream, buffer.Length - 1)
    ensures n < buffer.Length && buffer[..n] == stream[..n]
    ensures buffer[n..] == old(buffer[n..])
  {
    ghost var orig := buffer[..];
    n := 0;
    while n < buffer.Length - 1 && n < |stream|
      invariant 0 <= n <= buffer.Length - 1 && n <= |stream|
      invariant forall i :: 0 <= i < n ==> buffer[i] == stream[i] && stream[i] != NEWLINE
      invariant forall i :: n <= i < buffer.Length ==> buffer[i] == orig[i]
    {
      buffer[n] := stream[n];
      n := n + 1;
      if stream[n - 1] == NEWLINE {
        break;
      }
    }
    LineLengthUnique(stream, buffer.Length - 1, n);
    assert buffer[..n] == stream[..n];
    assert buffer[n..] == orig[n..];
  }
}
