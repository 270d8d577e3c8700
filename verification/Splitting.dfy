/** Cutting text at every occurrence of a character. */
module Splitting {
  import opened Common

  /** `text.split(sep)` */
  function SplitOn(text: string, sep: char): (parts: seq<string>)
    ensures parts != []
  {
    if text == "" then [""]
    else
      var later := SplitOn(text[1..], sep);
      if text[0] == sep then [""] + later else [[text[0]] + later[0]] + later[1..]
  }

  lemma SplitNothing(sep: char)
    ensures SplitOn("", sep) == [""]
  {}

  lemma SplitNext(text: string, sep: char)
    requires text != ""
    ensures var later := SplitOn(text[1..], sep);
            && later != []
            && SplitOn(text, sep) == if text[0] == sep then [""] + later else [[text[0]] + later[0]] + later[1..]
  {}

  lemma {:induction false} SplitPlain(text: string, sep: char)
    requires sep !in text
    ensures SplitOn(text, sep) == [text]
  {
    if text != "" {
      SplitPlain(text[1..], sep);
      assert [text[0]] + text[1..] == text;
    }
  }

  /** Splitting at a separator in the middle splits both sides. */
  lemma {:induction false} SplitAppend(a: string, b: string, sep: char)
    ensures SplitOn(a + [sep] + b, sep) == SplitOn(a, sep) + SplitOn(b, sep)
  {
    hide *;
    var back := SplitOn(b, sep);
    SplitNothing(sep);
    if a == "" {
      NothingAdded([sep] + b);
      DropFirst([sep], b);
      NothingAdded(b);
      SplitNext([sep] + b, sep);
      NothingAdded([sep]);
    } else {
      var front := SplitOn(a[1..], sep);
      SplitNext(a, sep);
      DropFirst(a, [sep]);
      DropFirst(a + [sep], b);
      SplitNext(a + [sep] + b, sep);
      SplitAppend(a[1..], b, sep);
      DropFirst(front, back);
      Assoc([""], front, back);
      Assoc([[a[0]] + front[0]], front[1..], back);
    }
  }
}
