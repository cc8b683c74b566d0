/** Joining pieces of text. */
module Texts {

  /** The pieces in order, with a separator between each two. */
  function JoinWith(pieces: seq<string>, separator: char): string {
    if pieces == [] then []
    else if |pieces| == 1 then pieces[0]
    else pieces[0] + [separator] + JoinWith(pieces[1..], separator)
  }
}
