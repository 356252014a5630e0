/** Chat messages as the provider formatters see them, and Python's str.join. */
module Messages {

  /** The three roles a message may carry. */
  datatype Role = System | User | Assistant

  /** One chat message as a value: a role and its text. */
  datatype Msg = Msg(role: Role, content: string)

  /** Python's `"sep".join(parts)`: the parts with `sep` between neighbours. */
  function Join(parts: seq<string>, sep: string): string
  {
    if |parts| == 0 then ""
    else if |parts| == 1 then parts[0]
    else Join(parts[..|parts| - 1], sep) + sep + parts[|parts| - 1]
  }

  /** The contents of the messages, in order. */
  function Contents(s: seq<Msg>): seq<string>
  {
    seq(|s|, i requires 0 <= i < |s| => s[i].content)
  }

  /** Joining one more part adds the separator and the part at the end. */
  lemma JoinSnoc(parts: seq<string>, x: string, sep: string)
    requires parts != []
    ensures Join(parts + [x], sep) == Join(parts, sep) + sep + x
  {
    assert (parts + [x])[..|parts|] == parts;
  }

  lemma ContentsSnoc(s: seq<Msg>, m: Msg)
    ensures Contents(s + [m]) == Contents(s) + [m.content]
  {
  }
}
