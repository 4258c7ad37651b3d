/**
 * String helpers used when filling story text: search-and-replace on a
 * string and wrapping text in an HTML tag.
 *
 * The replace functions of the library update a string through a pointer;
 * here they take the old string and return the new one.
 */
module WeaverUtils {
  import opened Wrappers

  /** `from` occurs in `s` starting at index `i`. */
  predicate OccursAt(s: string, from: string, i: nat)
  {
    i + |from| <= |s| && s[i..i + |from|] == from
  }

  /** `p` is the first index of `s` where `from` occurs. */
  predicate FirstOccurrence(s: string, from: string, p: nat)
  {
    OccursAt(s, from, p) && forall i | 0 <= i < p :: !OccursAt(s, from, i)
  }

  /**
   * `std::string::find(from, pos)`: the first occurrence of `from` at or
   * after `pos`; none (npos) when there is none. The empty string is found
   * at `pos` itself as long as `pos` is within the string.
   */
  function Find(s: string, from: string, pos: nat): (r: Option<nat>)
    ensures r.Some? ==> pos <= r.value && OccursAt(s, from, r.value)
    ensures r.Some? ==> forall i | pos <= i < r.value :: !OccursAt(s, from, i)
    ensures r.None? ==> forall i | pos <= i :: !OccursAt(s, from, i)
    decreases |s| - pos
  {
    if pos + |from| > |s| then None
    else if OccursAt(s, from, pos) then Some(pos)
    else Find(s, from, pos + 1)
  }

  /** `s` with `len` characters at `p` replaced by `to` (`std::string::replace`). */
  function Splice(s: string, p: nat, len: nat, to: string): string
    requires p + len <= |s|
  {
    s[..p] + to + s[p + len..]
  }

  /**
   * Reference meaning of replace-all: cut `s` at the first occurrence of
   * `from`, emit `to`, and carry on in what follows the occurrence. Text
   * produced by `to` is never searched again.
   */
  function ReplaceAllSpec(s: string, from: string, to: string): string
    requires |from| > 0
    decreases |s|
  {
    match Find(s, from, 0)
    case None => s
    case Some(p) => s[..p] + to + ReplaceAllSpec(s[p + |from|..], from, to)
  }

  /** Occurrences in `pre + rest` past `pre` are the occurrences in `rest`, shifted. */
  lemma {:induction false} FindShift(pre: string, rest: string, from: string, k: nat)
    ensures Find(rest, from, k).None? ==> Find(pre + rest, from, |pre| + k).None?
    ensures Find(rest, from, k).Some? ==>
      Find(pre + rest, from, |pre| + k).Some? && Find(pre + rest, from, |pre| + k).value == |pre| + Find(rest, from, k).value
    decreases |rest| - k
  {
    var s := pre + rest;
    if |pre| + k + |from| <= |s| {
      assert s[|pre| + k..|pre| + k + |from|] == rest[k..k + |from|];
      if !OccursAt(s, from, |pre| + k) {
        FindShift(pre, rest, from, k + 1);
      }
    }
  }

  lemma ReplaceAllSpecUnfold(s: string, from: string, to: string)
    requires |from| > 0 && Find(s, from, 0).Some?
    ensures var p := Find(s, from, 0).value;
      && p + |from| <= |s|
      && ReplaceAllSpec(s, from, to) == s[..p] + to + ReplaceAllSpec(s[p + |from|..], from, to)
  {
  }

  lemma SpliceParts(s: string, start: nat, p: nat, len: nat, to: string)
    requires start + p + len <= |s|
    ensures var s' := Splice(s, start + p, len, to);
      && s'[..start + p + |to|] == s[..start] + (s[start..][..p] + to)
      && s'[start + p + |to|..] == s[start..][p + len..]
  {
  }

  /**
   * One round of the replace-all loop: with the text before `start` final
   * and the reference still to be applied from `start` on, replacing the
   * next occurrence and moving past the inserted text keeps that split.
   */
  lemma ReplaceStep(s: string, from: string, to: string, start: nat)
    requires |from| > 0 && start <= |s| && Find(s, from, start).Some?
    ensures var q := Find(s, from, start).value; var s' := Splice(s, q, |from|, to);
      && q + |to| <= |s'|
      && s[..start] + ReplaceAllSpec(s[start..], from, to) == s'[..q + |to|] + ReplaceAllSpec(s'[q + |to|..], from, to)
  {
    StepShape(s, from, to, start);
    var q := Find(s, from, start).value;
    var s' := Splice(s, q, |from|, to);
    Reassemble(s[..start], s[start..], from, to, s'[..q + |to|], s'[q + |to|..]);
  }

  lemma ConcatAssoc(a: string, b: string, c: string)
    ensures a + (b + c) == (a + b) + c
  {
  }

  lemma Reassemble(pre: string, rest: string, from: string, to: string, done: string, todo: string)
    requires |from| > 0 && Find(rest, from, 0).Some?
    requires var p := Find(rest, from, 0).value;
      && p + |from| <= |rest|
      && done == pre + (rest[..p] + to)
      && todo == rest[p + |from|..]
    ensures pre + ReplaceAllSpec(rest, from, to) == done + ReplaceAllSpec(todo, from, to)
  {
    ReplaceAllSpecUnfold(rest, from, to);
    var p := Find(rest, from, 0).value;
    ConcatAssoc(pre, rest[..p] + to, ReplaceAllSpec(todo, from, to));
  }

  lemma StepShape(s: string, from: string, to: string, start: nat)
    requires start <= |s| && Find(s, from, start).Some?
    ensures Find(s[start..], from, 0).Some?
    ensures var p := Find(s[start..], from, 0).value; var q := Find(s, from, start).value;
      var s' := Splice(s, q, |from|, to);
      && q == start + p
      && p + |from| <= |s[start..]|
      && s'[..q + |to|] == s[..start] + (s[start..][..p] + to)
      && s'[q + |to|..] == s[start..][p + |from|..]
  {
    var pre := s[..start];
    var rest := s[start..];
    assert s == pre + rest;
    FindShift(pre, rest, from, 0);
    var p := Find(rest, from, 0).value;
    SpliceParts(s, start, p, |from|, to);
  }

  /** Once no occurrence is left after `start`, the rest of the text stays as it is. */
  lemma ReplaceDone(s: string, from: string, to: string, start: nat)
    requires |from| > 0 && start <= |s| && Find(s, from, start).None?
    ensures s[..start] + ReplaceAllSpec(s[start..], from, to) == s
  {
    FindShift(s[..start], s[start..], from, 0);
    assert s[..start] + s[start..] == s;
  }

  /** Without an occurrence there is nothing to replace. */
  lemma ReplaceAllAbsent(s: string, from: string, to: string)
    requires |from| > 0 && forall i :: !OccursAt(s, from, i)
    ensures ReplaceAllSpec(s, from, to) == s
  {
    assert Find(s, from, 0).None?;
  }

  /** Replacing a string by itself leaves the text as it was. */
  lemma {:induction false} ReplaceAllSelf(s: string, from: string)
    requires |from| > 0
    ensures ReplaceAllSpec(s, from, from) == s
    decreases |s|
  {
    match Find(s, from, 0)
    case None =>
    case Some(p) =>
      ReplaceAllSelf(s[p + |from|..], from);
      assert s == s[..p] + from + s[p + |from|..];
  }

  /** Equal-length replacement keeps the length of the text. */
  lemma {:induction false} ReplaceAllKeepsLength(s: string, from: string, to: string)
    requires |from| > 0 && |to| == |from|
    ensures |ReplaceAllSpec(s, from, to)| == |s|
    decreases |s|
  {
    match Find(s, from, 0)
    case None =>
    case Some(p) =>
      ReplaceAllKeepsLength(s[p + |from|..], from, to);
  }

  /**
   * Replaces every non-overlapping occurrence of `from`, left to right,
   * without searching the inserted text; an empty `from` changes nothing.
   */
  method ReplaceAll(str: string, from: string, to: string) returns (result: string)
    ensures |from| == 0 ==> result == str
    ensures |from| > 0 ==> result == ReplaceAllSpec(str, from, to)
  {
    result := str;
    if |from| == 0 {
      return;
    }
    var startPos: nat := 0;
    assert result[..0] + result[0..] == result;
    var found := Find(result, from, startPos);
    while found.Some?
      invariant startPos <= |result|
      invariant found == Find(result, from, startPos)
      invariant result[..startPos] + ReplaceAllSpec(result[startPos..], from, to) == ReplaceAllSpec(str, from, to)
      decreases |result| - startPos
    {
      ReplaceStep(result, from, to, startPos);
      startPos := found.value;
      result := Splice(result, startPos, |from|, to);
      startPos := startPos + |to|;
      found := Find(result, from, startPos);
    }
    ReplaceDone(result, from, to, startPos);
  }

  /**
   * Replaces the first occurrence of `from` only, and tells whether there
   * was one. The empty string occurs at index 0, so an empty `from` puts
   * `to` in front.
   */
  method Replace(str: string, from: string, to: string) returns (found: bool, result: string)
    ensures found <==> exists i :: OccursAt(str, from, i)
    ensures !found ==> result == str
    ensures found ==> exists p: nat :: FirstOccurrence(str, from, p) && result == str[..p] + to + str[p + |from|..]
    ensures |from| == 0 ==> found && result == to + str
  {
    var startPos := Find(str, from, 0);
    if startPos.None? {
      return false, str;
    }
    result := Splice(str, startPos.value, |from|, to);
    found := true;
    assert FirstOccurrence(str, from, startPos.value);
    if |from| == 0 {
      assert startPos.value == 0;
      assert str[0..] == str;
    }
  }

  /** Class names separated by single blanks. */
  function JoinWithSpaces(parts: seq<string>): string
    decreases |parts|
  {
    if |parts| == 0 then ""
    else if |parts| == 1 then parts[0]
    else parts[0] + " " + JoinWithSpaces(parts[1..])
  }

  /** The ` class="..."` attribute, absent when there are no classes. */
  function ClassAttribute(classes: seq<string>): string
  {
    if classes == [] then "" else " class=\"" + JoinWithSpaces(classes) + "\""
  }

  /** `str` wrapped in an element `tag` carrying `classes`; an empty tag leaves `str` bare. */
  function Enclosed(str: string, tag: string, classes: seq<string>): string
  {
    if tag == "" then str
    else "<" + tag + ClassAttribute(classes) + ">" + str + "</" + tag + ">"
  }

  lemma {:induction false} JoinSnoc(parts: seq<string>, last: string)
    requires parts != []
    ensures JoinWithSpaces(parts + [last]) == JoinWithSpaces(parts) + " " + last
    decreases |parts|
  {
    if |parts| > 1 {
      assert (parts + [last])[1..] == parts[1..] + [last];
      JoinSnoc(parts[1..], last);
    } else {
      assert parts + [last] == [parts[0], last];
    }
  }

  /** The pieces of `s` between blanks (the inverse of joining with blanks). */
  function SplitAtSpaces(s: string): (r: seq<string>)
    ensures |r| > 0
    decreases |s|
  {
    if s == [] then [""]
    else if s[0] == ' ' then [""] + SplitAtSpaces(s[1..])
    else
      var r := SplitAtSpaces(s[1..]);
      [[s[0]] + r[0]] + r[1..]
  }

  lemma {:induction false} SplitWithoutBlank(s: string)
    requires ' ' !in s
    ensures SplitAtSpaces(s) == [s]
    decreases |s|
  {
    if s != [] {
      assert s[0] in s;
      assert forall c | c in s[1..] :: c in s;
      SplitWithoutBlank(s[1..]);
      assert [s[0]] + s[1..] == s;
    }
  }

  lemma {:induction false} SplitAfterFirstBlank(head: string, rest: string)
    requires ' ' !in head
    ensures SplitAtSpaces(head + " " + rest) == [head] + SplitAtSpaces(rest)
    decreases |head|
  {
    var s := head + " " + rest;
    if head == [] {
      assert s == " " + rest;
      assert s[1..] == rest;
    } else {
      assert head[0] in head;
      assert forall c | c in head[1..] :: c in head;
      assert s[1..] == head[1..] + " " + rest;
      SplitAfterFirstBlank(head[1..], rest);
      assert [head[0]] + head[1..] == head;
    }
  }

  /** Class names without blanks can be read back from the attribute value. */
  lemma {:induction false} SplitJoin(parts: seq<string>)
    requires parts != []
    requires forall k | 0 <= k < |parts| :: ' ' !in parts[k]
    ensures SplitAtSpaces(JoinWithSpaces(parts)) == parts
    decreases |parts|
  {
    if |parts| == 1 {
      SplitWithoutBlank(parts[0]);
    } else {
      SplitAfterFirstBlank(parts[0], JoinWithSpaces(parts[1..]));
      SplitJoin(parts[1..]);
      assert parts == [parts[0]] + parts[1..];
    }
  }

  /** The element always opens with `<tag` and closes with `</tag>`, with `str` in between. */
  lemma EnclosedShape(str: string, tag: string, classes: seq<string>)
    requires tag != ""
    ensures var html := Enclosed(str, tag, classes); var open := |html| - |str| - |tag| - 3;
      && 0 <= open
      && html[..1 + |tag|] == "<" + tag
      && html[open..open + |str|] == str
      && html[open + |str|..] == "</" + tag + ">"
  {
    var head := "<" + tag + ClassAttribute(classes) + ">";
    var tail := "</" + tag + ">";
    var html := Enclosed(str, tag, classes);
    assert html == head + str + tail;
    assert head[..1 + |tag|] == "<" + tag;
    var open := |head|;
    assert |html| - |str| - |tag| - 3 == open;
    assert html[..1 + |tag|] == head[..1 + |tag|];
    assert html[open..open + |str|] == str;
    assert html[open + |str|..] == tail;
  }

  /** What the class loop has written after its first `i` rounds. */
  function ClassesWritten(classes: seq<string>, i: nat): string
    requires i <= |classes|
  {
    if i == 0 then "" else JoinWithSpaces(classes[..i]) + (if i < |classes| then " " else "")
  }

  lemma ClassesWrittenStep(classes: seq<string>, i: nat)
    requires i < |classes|
    ensures ClassesWritten(classes, i + 1) == ClassesWritten(classes, i) + classes[i] + (if i < |classes| - 1 then " " else "")
  {
    if i > 0 {
      assert classes[..i + 1] == classes[..i] + [classes[i]];
      JoinSnoc(classes[..i], classes[i]);
    } else {
      assert classes[..1] == [classes[0]];
    }
  }

  /**
   * Wraps `str` in `<tag class="c1 c2 ...">` and `</tag>`; the attribute is
   * left out without classes and the text is returned bare for an empty tag.
   */
  method HtmlEncloseWithTagAndClasses(str: string, tag: string, classes: seq<string>) returns (html: string)
    ensures html == Enclosed(str, tag, classes)
  {
    if tag == "" {
      return str;
    }
    var attribute := "";
    if |classes| > 0 {
      var written := "";
      for i := 0 to |classes|
        invariant written == ClassesWritten(classes, i)
      {
        ClassesWrittenStep(classes, i);
        written := written + classes[i];
        if i < |classes| - 1 {
          written := written + " ";
        }
      }
      assert classes[..|classes|] == classes;
      attribute := " class=\"" + written + "\"";
    }
    html := "<" + tag + attribute + ">" + str + "</" + tag + ">";
  }

  /** The same without classes. */
  method HtmlEncloseWithTag(str: string, tag: string) returns (html: string)
    ensures html == Enclosed(str, tag, [])
  {
    html := HtmlEncloseWithTagAndClasses(str, tag, []);
  }
}
