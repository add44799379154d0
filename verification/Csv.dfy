/** Lines and fields of a comma-separated text file, and numbers in it. */
module Csv {
  import opened Options

  /** How numbers are printed and parsed; parsing fails on malformed text. `exact` are the numbers that the
      machine can represent. */
  datatype Numbers = Numbers(exact: real -> bool, text: real -> string, number: string -> Option<real>) {
    /** Parsing undoes printing of exact numbers, and their text fits into a field. */
    ghost predicate Valid() {
      forall x {:trigger text(x)} :: exact(x) ==>
        number(text(x)) == Some(x) && IsField(text(x)) && '\n' !in text(x) && '\r' !in text(x)
    }
  }

  predicate IsField(s: string) { s != "" && ',' !in s }

  /** Where `c` first occurs from `from` on, or the end. */
  function Find(s: string, c: char, from: nat): (i: nat)
    requires from <= |s|
    ensures from <= i <= |s|
    ensures forall k :: from <= k < i ==> s[k] != c
    ensures i < |s| ==> s[i] == c
    decreases |s| - from
  {
    if from == |s| || s[from] == c then from else Find(s, c, from + 1)
  }

  /** The line that starts at an offset, without its end, and the offset of the next line. */
  function GetLine(file: string, pos: nat): (r: Option<(string, nat)>)
    ensures r.Some? ==> pos < r.value.1 <= |file|
  {
    if pos >= |file| then None
    else
      var end := Find(file, '\n', pos);
      Some((file[pos..end], if end < |file| then end + 1 else end))
  }

  function StripReturn(line: string): string {
    if line != "" && line[|line| - 1] == '\r' then line[..|line| - 1] else line
  }

  /** The fields between commas; nothing after a comma at the end is no field. */
  function Fields(line: string): seq<string> {
    if line == "" then []
    else
      var end := Find(line, ',', 0);
      if end == |line| then [line] else [line[..end]] + Fields(line[end + 1..])
  }

  /** Fields with commas between them. */
  function Join(fields: seq<string>): string {
    if fields == [] then ""
    else if |fields| == 1 then fields[0]
    else fields[0] + "," + Join(fields[1..])
  }

  /** Splitting undoes joining. */
  lemma {:induction false} FieldsOfJoin(fields: seq<string>)
    requires forall k :: 0 <= k < |fields| ==> IsField(fields[k])
    ensures Fields(Join(fields)) == fields
    ensures fields != [] ==> Join(fields) != ""
  {
    if |fields| > 1 {
      var first, rest := fields[0], Join(fields[1..]);
      FieldsOfJoin(fields[1..]);
      var line := first + "," + rest;
      var end := Find(line, ',', 0);
      assert line[|first|] == ',';
      assert forall k :: 0 <= k < |first| ==> line[k] == first[k];
      assert end == |first|;
      assert line[..end] == first && line[end + 1..] == rest;
    } else if |fields| == 1 {
      assert Join(fields) == fields[0];
    }
  }

  /** Any line is its fields with commas between them, but for a comma at its end; only the empty line has no field. */
  lemma {:induction false} JoinOfFields(line: string)
    ensures Join(Fields(line)) == if line != "" && line[|line| - 1] == ',' then line[..|line| - 1] else line
    ensures forall k :: 0 <= k < |Fields(line)| ==> ',' !in Fields(line)[k]
    ensures Fields(line) == [] <==> line == ""
  {
    var end := Find(line, ',', 0);
    if end < |line| {
      var first, rest := line[..end], line[end + 1..];
      JoinOfFields(rest);
      assert line == first + "," + rest;
      assert Fields(line) == [first] + Fields(rest);
      if rest == "" {
        assert Join(Fields(line)) == first;
      } else {
        assert (first + "," + rest)[..|line| - 1] == first + "," + rest[..|rest| - 1];
      }
    }
  }

  lemma {:induction false} JoinHasNo(fields: seq<string>, c: char)
    requires c != ',' && forall k :: 0 <= k < |fields| ==> c !in fields[k]
    ensures c !in Join(fields)
  {
    if |fields| > 1 {
      JoinHasNo(fields[1..], c);
    }
  }

  function Ended(line: string): string { line + "\n" }

  /** A line in the middle of a file is read back from its offset. */
  lemma LineInFile(file: string, prefix: string, line: string, rest: string)
    requires file == prefix + Ended(line) + rest && '\n' !in line
    ensures GetLine(file, |prefix|) == Some((line, |prefix| + |line| + 1))
  {
    var end := Find(file, '\n', |prefix|);
    assert file[|prefix| + |line|] == '\n';
    assert forall k :: 0 <= k < |line| ==> file[|prefix| + k] == line[k];
    assert end == |prefix| + |line|;
    assert file[|prefix|..end] == line;
  }

  /** The last line of a file need not be ended. After it there is none. */
  lemma LastLine(file: string, prefix: string, line: string)
    requires file == prefix + line && '\n' !in line
    ensures GetLine(file, |prefix|) == if line == "" then None else Some((line, |file|))
    ensures GetLine(file, |file|) == None
  {
    if line != "" {
      assert forall k :: 0 <= k < |line| ==> file[|prefix| + k] == line[k];
      assert file[|prefix|..|file|] == line;
    }
  }
}
