/** The part of System.Text.StringBuilder that the formatter uses: a buffer of
    characters that grows only at its end. */
module Text {

  class StringBuilder {
    var contents: string

    /** `new StringBuilder()` and `new StringBuilder(value)`. */
    constructor (initial: string)
      ensures contents == initial
    {
      contents := initial;
    }

    /** `Append(string)` and `AppendFormat(provider, "{0:N}", v)` once the
        argument has been rendered. */
    method Append(s: string)
      modifies this
      ensures contents == old(contents) + s
    {
      contents := contents + s;
    }

    /** `Append(char)`. */
    method AppendChar(ch: char)
      modifies this
      ensures contents == old(contents) + [ch]
    {
      contents := contents + [ch];
    }

    function ToString(): string
      reads this
    {
      contents
    }
  }
}
