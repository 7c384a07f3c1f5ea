/**
 * The Serializer collaborator: a positional stream of typed values with one
 * stream version.  Its byte format is not part of this model; the stream is a
 * sequence of typed tokens.  Writing appends; reading consumes at a cursor and,
 * on a value of the wrong kind or the end of the stream, raises a sticky
 * failure flag and yields a default value.
 */
module Serialization {
  import opened Wrappers
  import opened Dates
  import opened Int32Math

  /** One written value: WriteUint64, WriteInt32, WriteString, or a Date. */
  datatype Token = U64(u: nat) | I32(i: Int32) | Str(s: string) | DateTok(d: Date)

  /** The int32 at position pos and the position after it, if that is what is there. */
  function Int32At(toks: seq<Token>, pos: nat): Option<(Int32, nat)>
  {
    if pos < |toks| && toks[pos].I32? then Some((toks[pos].i, pos + 1)) else None
  }

  function StringAt(toks: seq<Token>, pos: nat): Option<(string, nat)>
  {
    if pos < |toks| && toks[pos].Str? then Some((toks[pos].s, pos + 1)) else None
  }

  function DateAt(toks: seq<Token>, pos: nat): Option<(Date, nat)>
  {
    if pos < |toks| && toks[pos].DateTok? then Some((toks[pos].d, pos + 1)) else None
  }

  class Serializer {
    /** The stream version, fixed when the stream is created or opened. */
    const version: int
    /** Everything written so far (writing) or the whole stream (reading). */
    var tokens: seq<Token>
    /** The read cursor. */
    var pos: nat
    /** Set by the first read that finds no value of the requested kind. */
    var failed: bool

    constructor ForWriting(version: int)
      ensures this.version == version && tokens == [] && pos == 0 && !failed
    {
      this.version := version;
      tokens := [];
      pos := 0;
      failed := false;
    }

    constructor ForReading(version: int, input: seq<Token>)
      ensures this.version == version && tokens == input && pos == 0 && !failed
    {
      this.version := version;
      tokens := input;
      pos := 0;
      failed := false;
    }

    method WriteUint64(v: nat)
      modifies this`tokens
      ensures tokens == old(tokens) + [U64(v)]
    {
      tokens := tokens + [U64(v)];
    }

    method WriteInt32(v: Int32)
      modifies this`tokens
      ensures tokens == old(tokens) + [I32(v)]
    {
      tokens := tokens + [I32(v)];
    }

    method WriteString(v: string)
      modifies this`tokens
      ensures tokens == old(tokens) + [Str(v)]
    {
      tokens := tokens + [Str(v)];
    }

    /** Date::Serialize. */
    method WriteDate(d: Date)
      modifies this`tokens
      ensures tokens == old(tokens) + [DateTok(d)]
    {
      tokens := tokens + [DateTok(d)];
    }

    method ReadInt32() returns (v: Int32)
      modifies this`pos, this`failed
      ensures if !old(failed) && Int32At(tokens, old(pos)).Some?
              then !failed && (v, pos) == Int32At(tokens, old(pos)).value
              else failed && pos == old(pos) && v == 0
    {
      match Int32At(tokens, pos)
      case Some((x, next)) =>
        if failed { v := 0; } else { v, pos := x, next; }
      case None =>
        v, failed := 0, true;
    }

    method ReadString() returns (v: string)
      modifies this`pos, this`failed
      ensures if !old(failed) && StringAt(tokens, old(pos)).Some?
              then !failed && (v, pos) == StringAt(tokens, old(pos)).value
              else failed && pos == old(pos) && v == ""
    {
      match StringAt(tokens, pos)
      case Some((x, next)) =>
        if failed { v := ""; } else { v, pos := x, next; }
      case None =>
        v, failed := "", true;
    }

    /** Date::ReadFromSerializer. */
    method ReadDate() returns (v: Date)
      modifies this`pos, this`failed
      ensures if !old(failed) && DateAt(tokens, old(pos)).Some?
              then !failed && (v, pos) == DateAt(tokens, old(pos)).value
              else failed && pos == old(pos) && v == EmptyTime
    {
      match DateAt(tokens, pos)
      case Some((x, next)) =>
        if failed { v := EmptyTime; } else { v, pos := x, next; }
      case None =>
        v, failed := EmptyTime, true;
    }

    /** Marks the stream as corrupt (used for a status code outside the enumeration). */
    method Reject()
      modifies this`failed
      ensures failed
    {
      failed := true;
    }
  }
}
