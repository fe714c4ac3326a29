/** upcase.c: how the client cuts its input into the chunks that it sends. */
module UpcaseText {

  const BUFSIZ: nat := 8192
  const PIPE_BUF: nat := 4096
  const NUL: char := '\0'

  /** The characters fgets() takes: up to a newline, at most BUFSIZ - 1. */
  function LineLength(input: string, limit: nat): (n: nat)
    ensures n <= |input| && n <= limit && (input != "" && limit > 0 ==> n > 0)
  {
    if input == "" || limit == 0 then 0
    else if input[0] == '\n' then 1
    else 1 + LineLength(input[1..], limit - 1)
  }

  /** The first n characters are a line: they end with the first newline, or with the
      input, or are as many as the buffer takes. */
  ghost predicate IsLine(input: string, limit: nat, n: nat) {
    && 0 < n <= |input| && n <= limit
    && (forall j :: 0 <= j < n - 1 ==> input[j] != '\n')
    && (input[n - 1] == '\n' || n == |input| || n == limit)
  }

  lemma {:induction false} LineLengthIff(input: string, limit: nat, n: nat)
    requires input != "" && limit > 0
    ensures LineLength(input, limit) == n <==> IsLine(input, limit, n)
  {
    if input[0] != '\n' && |input| > 1 && limit > 1 {
      if n > 1 {
        LineLengthIff(input[1..], limit - 1, n - 1);
        assert forall j :: 0 < j < |input| ==> input[j] == input[1..][j - 1];
        assert forall j :: 0 <= j < |input| - 1 ==> input[1..][j] == input[j + 1];
      } else {
        assert LineLength(input[1..], limit - 1) > 0;
      }
    }
  }

  /** strlen() of a line. */
  function Strlen(line: string): (n: nat)
    ensures n <= |line| && NUL !in line[..n] && (n < |line| ==> line[n] == NUL)
  {
    if line == "" || line[0] == NUL then 0
    else
      var n := 1 + Strlen(line[1..]);
      assert line[..n] == [line[0]] + line[1..][..n - 1];
      n
  }

  function Chunks(text: string): seq<string>
    decreases |text|
  {
    if text == "" then []
    else if |text| < PIPE_BUF then [text]
    else [text[..PIPE_BUF - 1]] + Chunks(text[PIPE_BUF - 1..])
  }

  /** Everything the client sends for an input. */
  function Requests(input: string): seq<string>
    decreases |input|
  {
    if input == "" then []
    else
      var n := LineLength(input, BUFSIZ - 1);
      var line := input[..n];
      Chunks(line[..Strlen(line)]) + Requests(input[n..])
  }

  function Concat(chunks: seq<string>): string {
    if chunks == [] then "" else Concat(chunks[..|chunks| - 1]) + chunks[|chunks| - 1]
  }

  ghost predicate ChunksOk(chunks: seq<string>) {
    forall k :: 0 <= k < |chunks| ==> 0 < |chunks[k]| < PIPE_BUF
  }

  lemma {:induction false} ConcatOfConcat(a: seq<string>, b: seq<string>)
    ensures Concat(a + b) == Concat(a) + Concat(b)
    decreases |b|
  {
    if b == [] {
      assert a + b == a;
    } else {
      var last := |b| - 1;
      ConcatOfConcat(a, b[..last]);
      assert (a + b)[..|a + b| - 1] == a + b[..last];
    }
  }

  lemma {:induction false} ChunksCover(text: string)
    ensures Concat(Chunks(text)) == text && ChunksOk(Chunks(text))
    decreases |text|
  {
    if text == "" {
    } else if |text| < PIPE_BUF {
      assert Concat([text]) == Concat([]) + text;
    } else {
      var first, rest := text[..PIPE_BUF - 1], text[PIPE_BUF - 1..];
      ChunksCover(rest);
      ConcatOfConcat([first], Chunks(rest));
      assert Concat([first]) == Concat([]) + first;
    }
  }

  /** A line is cut into pieces of PIPE_BUF - 1 characters and what is left. */
  lemma {:induction false} PiecesAreFull(text: string)
    ensures forall k :: 0 <= k < |Chunks(text)| - 1 ==> |Chunks(text)[k]| == PIPE_BUF - 1
    ensures |text| == |Chunks(text)| * (PIPE_BUF - 1)
            || |Chunks(text)| * (PIPE_BUF - 1) - (PIPE_BUF - 1) < |text| < |Chunks(text)| * (PIPE_BUF - 1)
    decreases |text|
  {
    if |text| >= PIPE_BUF {
      PiecesAreFull(text[PIPE_BUF - 1..]);
    }
  }

  lemma {:induction false} RequestsAreChunks(input: string)
    ensures ChunksOk(Requests(input))
    decreases |input|
  {
    if input != "" {
      var n := LineLength(input, BUFSIZ - 1);
      var line := input[..n];
      ChunksCover(line[..Strlen(line)]);
      RequestsAreChunks(input[n..]);
    }
  }

  lemma SameFront(front: string, a: string, b: string)
    ensures front + a == front + b <==> a == b
  {
    assert (front + a)[|front|..] == a && (front + b)[|front|..] == b;
  }

  /** The chunks are the input again exactly when the input holds no NUL;
      otherwise the client sends less. */
  lemma {:induction false} RequestsCoverIff(input: string)
    ensures |Concat(Requests(input))| <= |input|
    ensures Concat(Requests(input)) == input <==> NUL !in input
    decreases |input|
  {
    if input != "" {
      var n := LineLength(input, BUFSIZ - 1);
      var line, rest := input[..n], input[n..];
      var m, tail := Strlen(line), Concat(Requests(rest));
      ChunksCover(line[..m]);
      RequestsCoverIff(rest);
      ConcatOfConcat(Chunks(line[..m]), Requests(rest));
      assert Concat(Requests(input)) == line[..m] + tail;
      assert input == line + rest;
      if m < n {
        assert input[m] == NUL;
      } else {
        assert line[..m] == line;
        SameFront(line, tail, rest);
        assert NUL in input <==> NUL in line || NUL in rest;
      }
    }
  }

  lemma NextChunk(text: string)
    requires text != ""
    ensures
      var n := if |text| < PIPE_BUF - 1 then |text| else PIPE_BUF - 1;
      Chunks(text) == [text[..n]] + Chunks(text[n..])
  {
    var n := if |text| < PIPE_BUF - 1 then |text| else PIPE_BUF - 1;
    if |text| < PIPE_BUF {
      assert text[..n] == text && Chunks(text[n..]) == [];
    }
  }

  /** One line: strncpy() takes PIPE_BUF - 1 characters at a time. */
  method SendLine(textbuf: string) returns (sent: seq<string>)
    ensures sent == Chunks(textbuf[..Strlen(textbuf)])
  {
    var strLength := Strlen(textbuf);
    ghost var text := textbuf[..strLength];
    sent := [];
    var nChunk := 0;
    while nChunk < strLength
      invariant 0 <= nChunk
      invariant sent + Chunks(if nChunk < strLength then text[nChunk..] else "") == Chunks(text)
    {
      var end := if nChunk + PIPE_BUF - 1 <= strLength then nChunk + PIPE_BUF - 1 else strLength;
      NextChunk(text[nChunk..]);
      assert text[nChunk..][..end - nChunk] == textbuf[nChunk..end];
      assert text[nChunk..][end - nChunk..] == text[end..];
      sent := sent + [textbuf[nChunk..end]];
      nChunk := nChunk + PIPE_BUF - 1;
    }
  }

  /** The input is sent line by line, each without what follows a NUL in it. */
  lemma RequestsByLine(input: string, n: nat)
    requires IsLine(input, BUFSIZ - 1, n)
    ensures Requests(input) == Chunks(input[..n][..Strlen(input[..n])]) + Requests(input[n..])
  {
    LineLengthIff(input, BUFSIZ - 1, n);
  }

  /** The client's loop over the lines of its input. */
  method SendAll(input: string) returns (sent: seq<string>)
    ensures sent == Requests(input)
  {
    sent := [];
    var rest := input;
    while rest != ""
      invariant sent + Requests(rest) == Requests(input)
      decreases |rest|
    {
      var n := LineLength(rest, BUFSIZ - 1);
      var chunks := SendLine(rest[..n]);
      ghost var tail := Requests(rest[n..]);
      assert Requests(rest) == chunks + tail;
      assert sent + (chunks + tail) == (sent + chunks) + tail;
      sent := sent + chunks;
      rest := rest[n..];
    }
  }

  // ------------------------------------------------------------- the conversion

  /** What toupper() does to a character. */
  type Locale = char -> char

  ghost function UpperText(locale: Locale, text: string): (r: string)
    ensures |r| == |text| && forall k :: 0 <= k < |text| ==> r[k] == locale(text[k])
  {
    if text == "" then "" else UpperText(locale, text[..|text| - 1]) + [locale(text[|text| - 1])]
  }

  /** The server's loop over its buffer. */
  method UpcaseInPlace(buffer: array<char>, nbytes: nat, locale: Locale)
    requires nbytes <= buffer.Length
    modifies buffer
    ensures buffer[..] == UpperText(locale, old(buffer[..nbytes])) + old(buffer[nbytes..])
  {
    for i := 0 to nbytes
      invariant forall k :: 0 <= k < i ==> buffer[k] == locale(old(buffer[k]))
      invariant forall k :: i <= k < buffer.Length ==> buffer[k] == old(buffer[k])
    {
      buffer[i] := locale(buffer[i]);
    }
  }
}
