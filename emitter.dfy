/** The emitter: two append-only text buffers, the header and the body, written out header first. */
module Emitting {

  class Emitter {
    var header: string
    var code: string

    /** Both buffers start empty. */
    constructor ()
      ensures header == "" && code == ""
    {
      header := "";
      code := "";
    }

    /** Appends to the body, for code that more code will follow on the same line. */
    method Emit(c: string)
      modifies this
      ensures code == old(code) + c
      ensures header == old(header)
    {
      code := code + c;
    }

    /** Appends a whole line to the body. */
    method EmitLine(c: string)
      modifies this
      ensures code == old(code) + c + "\n"
      ensures header == old(header)
    {
      code := code + c + "\n";
    }

    /** Appends a whole line to the header. */
    method HeaderLine(c: string)
      modifies this
      ensures header == old(header) + c + "\n"
      ensures code == old(code)
    {
      header := header + c + "\n";
    }

    /** The text written to the output file: the header, then the body, with nothing between them. */
    function Output(): (out: string)
      reads this
      ensures |out| == |header| + |code|
      ensures out[..|header|] == header && out[|header|..] == code
    {
      header + code
    }
  }
}
