/** str.strip() on ASCII text. */
module Text {
  predicate IsSpace(c: char) {
    c == ' ' || '\t' <= c <= '\r' || (28 as char) <= c <= (31 as char)
  }

  function Trim(text: string): string {
    if text != [] && IsSpace(text[0]) then Trim(text[1..])
    else if text != [] && IsSpace(text[|text| - 1]) then Trim(text[..|text| - 1])
    else text
  }
}
