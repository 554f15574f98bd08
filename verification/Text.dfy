/** White space at the ends of a text; the ASCII part of it. */
module Text {
  predicate Space(c: char) { c in " \t\n\r" || c == 11 as char || c == 12 as char }

  function TrimLeft(text: string): string {
    if text != "" && Space(text[0]) then TrimLeft(text[1..]) else text
  }

  function TrimRight(text: string): string {
    if text != "" && Space(text[|text| - 1]) then TrimRight(text[..|text| - 1]) else text
  }

  function Trim(text: string): string { TrimLeft(TrimRight(text)) }
}
