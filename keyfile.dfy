/** Loading the private-key file (`loadPrivateKeys`): the content is split at
    line feeds, every line is trimmed and the empty ones are dropped; a read
    failure ends the process. */
module KeyFile {
  import opened Outcomes
  import opened Logging

  /** The characters JavaScript's `String.prototype.trim` removes: the
      WhiteSpace set (tab, vertical tab, form feed, space, no-break space,
      byte-order mark and the Zs separators) and the LineTerminator set
      (line feed, carriage return, U+2028, U+2029). */
  predicate IsJsWhitespace(c: char)
  {
    var n := c as int;
    n == 0x09 || n == 0x0A || n == 0x0B || n == 0x0C || n == 0x0D || n == 0x20 ||
    n == 0xA0 || n == 0x1680 || (0x2000 <= n <= 0x200A) || n == 0x2028 ||
    n == 0x2029 || n == 0x202F || n == 0x205F || n == 0x3000 || n == 0xFEFF
  }

  predicate AllWhitespace(s: string)
  {
    forall i :: 0 <= i < |s| ==> IsJsWhitespace(s[i])
  }

  /** `s.split('\n')`: the pieces between line feeds; an empty string and a
      trailing line feed both give an empty last piece. */
  function Split(s: string): (lines: seq<string>)
    ensures |lines| >= 1
    ensures forall k :: 0 <= k < |lines| ==> '\n' !in lines[k]
  {
    if s == [] then [""]
    else
      var rest := Split(s[1..]);
      if s[0] == '\n' then [""] + rest
      else [[s[0]] + rest[0]] + rest[1..]
  }

  /** `lines.join('\n')`, the inverse of `Split`. */
  function Join(lines: seq<string>): string
    requires |lines| >= 1
  {
    if |lines| == 1 then lines[0] else lines[0] + "\n" + Join(lines[1..])
  }

  /** Joining the pieces with line feeds gives back the file content. */
  lemma {:induction false} JoinSplit(s: string)
    ensures Join(Split(s)) == s
  {
    if s != [] {
      var rest := Split(s[1..]);
      JoinSplit(s[1..]);
      if s[0] == '\n' {
        assert Split(s) == [""] + rest;
        assert Join(Split(s)) == "" + "\n" + Join(rest);
      } else {
        var lines := Split(s);
        assert lines == [[s[0]] + rest[0]] + rest[1..];
        if |rest| == 1 {
          assert Join(lines) == [s[0]] + rest[0];
        } else {
          assert lines[1..] == rest[1..];
          assert Join(lines) == [s[0]] + rest[0] + "\n" + Join(rest[1..]);
          assert Join(rest) == rest[0] + "\n" + Join(rest[1..]);
        }
        assert s == [s[0]] + s[1..];
      }
    }
  }

  /** A line feed splits the content into the pieces of either side. */
  lemma {:induction false} SplitAppend(a: string, b: string)
    ensures Split(a + "\n" + b) == Split(a) + Split(b)
  {
    if a == [] {
      assert a + "\n" + b == "\n" + b;
      assert ("\n" + b)[1..] == b;
    } else {
      assert (a + "\n" + b)[0] == a[0];
      assert (a + "\n" + b)[1..] == a[1..] + "\n" + b;
      SplitAppend(a[1..], b);
    }
  }

  /** The number of whitespace characters `s` starts with. */
  function LeadingSpace(s: string): (n: nat)
    ensures n <= |s|
  {
    if s == [] || !IsJsWhitespace(s[0]) then 0 else 1 + LeadingSpace(s[1..])
  }

  /** The number of whitespace characters `s` ends with. */
  function TrailingSpace(s: string): (n: nat)
    ensures n <= |s|
  {
    if s == [] || !IsJsWhitespace(s[|s| - 1]) then 0 else 1 + TrailingSpace(s[..|s| - 1])
  }

  lemma {:induction false} LeadingSpaceSpec(s: string)
    ensures AllWhitespace(s[..LeadingSpace(s)])
    ensures LeadingSpace(s) < |s| ==> !IsJsWhitespace(s[LeadingSpace(s)])
  {
    if s != [] && IsJsWhitespace(s[0]) {
      LeadingSpaceSpec(s[1..]);
      var n := LeadingSpace(s[1..]);
      assert s[..n + 1] == [s[0]] + s[1..][..n];
    }
  }

  lemma {:induction false} TrailingSpaceSpec(s: string)
    ensures AllWhitespace(s[|s| - TrailingSpace(s)..])
    ensures TrailingSpace(s) < |s| ==> !IsJsWhitespace(s[|s| - TrailingSpace(s) - 1])
  {
    if s != [] && IsJsWhitespace(s[|s| - 1]) {
      var t := s[..|s| - 1];
      TrailingSpaceSpec(t);
      var n := TrailingSpace(t);
      assert s[|s| - (n + 1)..] == t[|t| - n..] + [s[|s| - 1]];
    }
  }

  /** `s.trimStart()` */
  function TrimStart(s: string): string
  {
    s[LeadingSpace(s)..]
  }

  /** `s.trimEnd()` */
  function TrimEnd(s: string): string
  {
    s[..|s| - TrailingSpace(s)]
  }

  /** `s.trim()` */
  function Trim(s: string): string
  {
    TrimEnd(TrimStart(s))
  }

  /** Where the trimmed line starts and ends in `s`. */
  function TrimFrom(s: string): nat
  {
    LeadingSpace(s)
  }

  function TrimTo(s: string): (j: nat)
    ensures TrimFrom(s) <= j <= |s|
  {
    |s| - TrailingSpace(s[LeadingSpace(s)..])
  }

  /** `trim` removes exactly the leading and trailing JavaScript whitespace:
      the result is the infix of `s` between a whitespace-only prefix and a
      whitespace-only suffix, and it neither starts nor ends with whitespace. */
  lemma TrimSpec(s: string)
    ensures Trim(s) == s[TrimFrom(s)..TrimTo(s)]
    ensures AllWhitespace(s[..TrimFrom(s)]) && AllWhitespace(s[TrimTo(s)..])
    ensures Trim(s) != [] ==> !IsJsWhitespace(Trim(s)[0]) && !IsJsWhitespace(Trim(s)[|Trim(s)| - 1])
  {
    var i, j := TrimFrom(s), TrimTo(s);
    var t := s[i..];
    LeadingSpaceSpec(s);
    TrailingSpaceSpec(t);
    assert Trim(s) == s[i..j];
    assert s[j..] == t[|t| - TrailingSpace(t)..];
    if Trim(s) != [] {
      assert Trim(s)[0] == s[i];
      assert Trim(s)[|Trim(s)| - 1] == t[|t| - TrailingSpace(t) - 1];
    }
  }

  /** A trimmed line is empty exactly when the line is whitespace only. */
  lemma TrimEmptyIff(s: string)
    ensures Trim(s) == [] <==> AllWhitespace(s)
  {
    TrimSpec(s);
    var i, j := TrimFrom(s), TrimTo(s);
    if Trim(s) == [] {
      forall k | 0 <= k < |s| ensures IsJsWhitespace(s[k]) {
        if k < i { assert s[k] == s[..i][k]; } else { assert s[k] == s[j..][k - j]; }
      }
    } else {
      assert Trim(s)[0] == s[i];
    }
  }

  lemma LeadingSpaceNone(s: string)
    requires s == [] || !IsJsWhitespace(s[0])
    ensures LeadingSpace(s) == 0
  {
  }

  lemma TrailingSpaceNone(s: string)
    requires s == [] || !IsJsWhitespace(s[|s| - 1])
    ensures TrailingSpace(s) == 0
  {
  }

  /** Trimming a trimmed line changes nothing. */
  lemma TrimIdempotent(s: string)
    ensures Trim(Trim(s)) == Trim(s)
  {
    var r := Trim(s);
    TrimSpec(s);
    LeadingSpaceNone(r);
    assert TrimStart(r) == r;
    TrailingSpaceNone(r);
    assert TrimEnd(r) == r;
  }

  /** Every line trimmed, in order. */
  function TrimAll(lines: seq<string>): (r: seq<string>)
    ensures |r| == |lines|
    ensures forall k :: 0 <= k < |lines| ==> r[k] == Trim(lines[k])
  {
    if lines == [] then [] else [Trim(lines[0])] + TrimAll(lines[1..])
  }

  /** The filter that keeps the truthy keys: an empty string is falsy and is
      dropped, every other string is kept. */
  function NonEmpty(lines: seq<string>): (r: seq<string>)
    ensures |r| <= |lines|
    ensures forall k :: 0 <= k < |r| ==> r[k] != [] && r[k] in lines
    ensures forall x :: x in lines && x != [] ==> x in r
  {
    if lines == [] then []
    else if lines[0] == [] then NonEmpty(lines[1..])
    else [lines[0]] + NonEmpty(lines[1..])
  }

  /** The body of `loadPrivateKeys` once the file is read: split into lines,
      trim each, keep the non-empty ones. */
  function ParseKeys(content: string): (keys: seq<string>)
    ensures |keys| <= |Split(content)|
    ensures forall k :: 0 <= k < |keys| ==> keys[k] != []
  {
    NonEmpty(TrimAll(Split(content)))
  }

  /** Reference definition: keep the trimmed form of every line that is not
      whitespace only, in file order. */
  function KeptLines(lines: seq<string>): seq<string>
  {
    if lines == [] then []
    else (if AllWhitespace(lines[0]) then [] else [Trim(lines[0])]) + KeptLines(lines[1..])
  }

  lemma {:induction false} NonEmptyTrimAll(lines: seq<string>)
    ensures NonEmpty(TrimAll(lines)) == KeptLines(lines)
  {
    if lines != [] {
      TrimEmptyIff(lines[0]);
      assert TrimAll(lines)[1..] == TrimAll(lines[1..]);
      NonEmptyTrimAll(lines[1..]);
    }
  }

  /** The lines dropped are exactly the blank and whitespace-only ones; every
      other line contributes its trimmed form, in order. */
  lemma ParseKeysKeepsNonBlankLines(content: string)
    ensures ParseKeys(content) == KeptLines(Split(content))
  {
    NonEmptyTrimAll(Split(content));
  }

  /** The trimmed form of a line that is not whitespace only is a key: it is
      non-empty, trimming it again changes nothing, it neither starts nor ends
      with whitespace (a carriage return of a CRLF file included) and, like
      the line, it holds no line feed. */
  predicate IsKey(k: string)
  {
    k != [] && Trim(k) == k && '\n' !in k &&
    !IsJsWhitespace(k[0]) && !IsJsWhitespace(k[|k| - 1])
  }

  /** Every character of a trimmed line comes from the line. */
  lemma TrimChars(line: string)
    ensures forall c :: c in Trim(line) ==> c in line
  {
    TrimSpec(line);
    var i, j := TrimFrom(line), TrimTo(line);
    forall c | c in line[i..j] ensures c in line {
      var k :| 0 <= k < j - i && line[i..j][k] == c;
      assert line[i + k] == c;
    }
  }

  lemma TrimmedLineIsKey(line: string)
    requires '\n' !in line && !AllWhitespace(line)
    ensures IsKey(Trim(line))
  {
    TrimSpec(line);
    TrimEmptyIff(line);
    TrimIdempotent(line);
    TrimChars(line);
  }

  /** Every element of `keys` is a well-formed key. */
  predicate AllKeys(keys: seq<string>)
  {
    forall k :: 0 <= k < |keys| ==> IsKey(keys[k])
  }

  lemma AllKeysAppend(x: seq<string>, y: seq<string>)
    requires AllKeys(x) && AllKeys(y)
    ensures AllKeys(x + y)
  {
    forall k | 0 <= k < |x + y| ensures IsKey((x + y)[k]) {
      if k < |x| {
        assert (x + y)[k] == x[k];
      } else {
        assert (x + y)[k] == y[k - |x|];
      }
    }
  }

  lemma {:induction false} KeptLinesAreKeys(lines: seq<string>)
    requires forall l :: 0 <= l < |lines| ==> '\n' !in lines[l]
    ensures |KeptLines(lines)| <= |lines|
    ensures AllKeys(KeptLines(lines))
  {
    if lines != [] {
      var head := if AllWhitespace(lines[0]) then [] else [Trim(lines[0])];
      var tail := KeptLines(lines[1..]);
      assert forall l :: 0 <= l < |lines[1..]| ==> lines[1..][l] == lines[l + 1];
      KeptLinesAreKeys(lines[1..]);
      if !AllWhitespace(lines[0]) {
        assert '\n' !in lines[0];
        TrimmedLineIsKey(lines[0]);
        assert head[0] == Trim(lines[0]);
      }
      assert AllKeys(head);
      assert KeptLines(lines) == head + tail;
      AllKeysAppend(head, tail);
    }
  }

  /** Every parsed key is well formed (see IsKey), and there are no more keys
      than `\n`-separated lines. */
  lemma ParseKeysWellFormed(content: string)
    ensures |ParseKeys(content)| <= |Split(content)|
    ensures forall k :: 0 <= k < |ParseKeys(content)| ==> IsKey(ParseKeys(content)[k])
  {
    ParseKeysKeepsNonBlankLines(content);
    KeptLinesAreKeys(Split(content));
  }

  lemma TrimAllAppendAt(a: seq<string>, b: seq<string>, k: nat)
    requires k < |a| + |b|
    ensures TrimAll(a + b)[k] == (TrimAll(a) + TrimAll(b))[k]
  {
    var line := (a + b)[k];
    assert TrimAll(a + b)[k] == Trim(line);
    if k < |a| {
      assert line == a[k];
      assert (TrimAll(a) + TrimAll(b))[k] == TrimAll(a)[k] == Trim(a[k]);
    } else {
      assert line == b[k - |a|];
      assert (TrimAll(a) + TrimAll(b))[k] == TrimAll(b)[k - |a|] == Trim(b[k - |a|]);
    }
  }

  lemma TrimAllAppend(a: seq<string>, b: seq<string>)
    ensures TrimAll(a + b) == TrimAll(a) + TrimAll(b)
  {
    var whole, parts := TrimAll(a + b), TrimAll(a) + TrimAll(b);
    forall k | 0 <= k < |whole| ensures whole[k] == parts[k] {
      TrimAllAppendAt(a, b, k);
    }
  }

  lemma {:induction false} NonEmptyAppend(a: seq<string>, b: seq<string>)
    ensures NonEmpty(a + b) == NonEmpty(a) + NonEmpty(b)
  {
    if a == [] {
      assert a + b == b;
    } else {
      assert (a + b)[0] == a[0];
      assert (a + b)[1..] == a[1..] + b;
      NonEmptyAppend(a[1..], b);
      if a[0] == [] {
        calc {
          NonEmpty(a + b);
          NonEmpty(a[1..] + b);
          NonEmpty(a[1..]) + NonEmpty(b);
        }
      } else {
        calc {
          NonEmpty(a + b);
          [a[0]] + NonEmpty(a[1..] + b);
          [a[0]] + (NonEmpty(a[1..]) + NonEmpty(b));
          ([a[0]] + NonEmpty(a[1..])) + NonEmpty(b);
        }
      }
    }
  }

  /** Keys keep the relative order of their lines: the keys of two pieces of
      the file joined by a line feed are the keys of the first piece followed
      by those of the second. */
  lemma ParseKeysAppend(a: string, b: string)
    ensures ParseKeys(a + "\n" + b) == ParseKeys(a) + ParseKeys(b)
  {
    SplitAppend(a, b);
    TrimAllAppend(Split(a), Split(b));
    NonEmptyAppend(TrimAll(Split(a)), TrimAll(Split(b)));
  }

  /** What `fs.readFileSync` gives back. */
  datatype FileRead = Contents(text: string) | ReadError(message: string)

  /** What `loadPrivateKeys` does: the key list, or (on a read failure) an
      error line and `process.exit(1)`; the process ends, so no list is returned. */
  datatype KeyLoad = Loaded(keys: seq<string>) | Exited(code: int, log: seq<LogLine>)

  function LoadPrivateKeys(read: FileRead): (r: KeyLoad)
    ensures r.Exited? <==> read.ReadError?
    ensures read.ReadError? ==> r == Exited(1, [KeyLoadFailed(read.message)])
    ensures read.Contents? ==> r.keys == KeptLines(Split(read.text))
  {
    match read
    case Contents(text) =>
      ParseKeysKeepsNonBlankLines(text);
      Loaded(ParseKeys(text))
    case ReadError(message) => Exited(1, [KeyLoadFailed(message)])
  }
}
