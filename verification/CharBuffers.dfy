/** NUL-terminated char arrays of fixed size, as C strings are kept. */
module CharBuffers {
  import opened PathText

  ghost predicate NulFree(s: string) {
    forall i :: 0 <= i < |s| ==> s[i] != '\0'
  }

  /** The C string at the start of s. */
  function UpToNul(s: string): (r: string)
    ensures NulFree(r) && r <= s
  {
    if s == "" || s[0] == '\0' then "" else [s[0]] + UpToNul(s[1..])
  }

  lemma {:induction false} UpToNulOf(text: string, s: string)
    requires NulFree(text) && text < s && s[|text|] == '\0'
    ensures UpToNul(s) == text
  {
    if text != "" {
      UpToNulOf(text[1..], s[1..]);
      assert text == [text[0]] + text[1..];
    }
  }

  class CharBuffer {
    const cells: array<char>

    constructor (size: nat)
      requires size > 0
      ensures fresh(cells) && cells.Length == size && Text() == ""
    {
      cells := new char[size](_ => '\0');
    }

    function Text(): (r: string)
      reads cells
      ensures NulFree(r) && |r| <= cells.Length
    {
      UpToNul(cells[..])
    }

    /** strncpy of the text into all cells but the last, which becomes NUL; snprintf of a
        text leaves the same string. */
    method Set(text: string)
      requires NulFree(text) && cells.Length > 0
      modifies cells
      ensures Text() == Clip(text, cells.Length - 1)
    {
      for i := 0 to cells.Length - 1
        invariant forall k :: 0 <= k < i ==> cells[k] == if k < |text| then text[k] else '\0'
      {
        cells[i] := if i < |text| then text[i] else '\0';
      }
      cells[cells.Length - 1] := '\0';
      ghost var kept := Clip(text, cells.Length - 1);
      assert kept == cells[..][..|kept|];
      UpToNulOf(kept, cells[..]);
    }
  }
}
