/** C strings in a buffer: where a NUL-terminated text lies, and the library calls that look
    at it or cut it in place. */
module CString {
  import opened Text

  /** A NUL-terminated text occupies `a[from..end]`. */
  ghost predicate TextAt(a: array<char>, from: nat, end: nat)
    reads a
  {
    from <= end < a.Length && a[end] == '\0' && forall i | from <= i < end :: a[i] != '\0'
  }

  method StrChr(a: array<char>, from: nat, c: char, ghost end: nat) returns (k: int)
    requires TextAt(a, from, end) && c != '\0'
    ensures var at := IndexOf(a[from..end], c);
      k == if at < end - from then from + at else -1
  {
    var i := from;
    while a[i] != '\0'
      invariant from <= i <= end
      invariant forall j | from <= j < i :: a[j] != c
      decreases end - i
    {
      if a[i] == c {
        assert a[from..end][..i - from] == a[from..i];
        IndexOfIs(a[from..end], c, i - from);
        return i;
      }
      i := i + 1;
    }
    IndexOfAbsent(a[from..end], c);
    return -1;
  }

  /** `xstrdup`, or any other reading of the text at a pointer. */
  method TextFrom(a: array<char>, from: nat, ghost end: nat) returns (s: string)
    requires TextAt(a, from, end)
    ensures s == a[from..end]
  {
    s := "";
    var i := from;
    while a[i] != '\0'
      invariant from <= i <= end && s == a[from..i]
      decreases end - i
    {
      s := s + [a[i]];
      i := i + 1;
    }
  }

  /** `snprintf(tmp, sizeof(tmp), "%s", buf)` into a new buffer of `size` characters. */
  method Copy(a: array<char>, from: nat, size: nat, ghost end: nat) returns (tmp: array<char>, n: nat)
    requires TextAt(a, from, end) && size > 0
    ensures fresh(tmp) && TextAt(tmp, 0, n)
    ensures tmp[..n] == CutTo(a[from..end], size)
  {
    tmp := new char[size](_ => '\0');
    n := 0;
    while n + 1 < size && a[from + n] != '\0'
      invariant n < size && from + n <= end
      invariant tmp[..n] == a[from..from + n]
      invariant tmp[n] == '\0'
      invariant forall i | n <= i < size :: tmp[i] == '\0'
    {
      tmp[n] := a[from + n];
      n := n + 1;
      assert tmp[..n] == tmp[..n - 1] + [a[from + n - 1]];
    }
    assert forall i | 0 <= i < n :: tmp[i] == tmp[..n][i] == a[from..from + n][i];
    assert a[from..end][..n] == a[from..from + n];
  }

  /** The text as a buffer of `size` characters holds it. */
  function CutTo(s: string, size: nat): string
    requires size > 0
  {
    if |s| < size then s else s[..size - 1]
  }

  /** `strtok_r` with one delimiter: skip leading delimiters, take up to the next one.
      `rest` is where the following call goes on. */
  datatype Token = NoToken | Token(word: string, rest: string)

  function Strtok(s: string, delim: char): Token
    decreases |s|
  {
    if s == "" then NoToken
    else if s[0] == delim then Strtok(s[1..], delim)
    else
      var k := IndexOf(s, delim);
      Token(s[..k], if k < |s| then s[k + 1..] else "")
  }

  lemma {:induction false} StrtokWord(s: string, delim: char)
    ensures match Strtok(s, delim)
      case NoToken => forall i | 0 <= i < |s| :: s[i] == delim
      case Token(word, _) => delim !in word
    decreases |s|
  {
    if s != "" && s[0] == delim {
      StrtokWord(s[1..], delim);
    } else if s != "" {
      IndexOfFirst(s, delim);
    }
  }

  lemma StrtokPlain(word: string, delim: char, rest: string)
    requires word != "" && delim !in word
    ensures Strtok(word + [delim] + rest, delim) == Token(word, rest)
  {
    var s := word + [delim] + rest;
    IndexOfPrefix(word, delim, rest);
    assert s[0] == word[0];
    assert s[..|word|] == word && s[|word| + 1..] == rest;
  }

  method SkipDelim(a: array<char>, from: nat, delim: char, ghost n: nat) returns (i: nat)
    requires TextAt(a, from, n) && delim != '\0'
    ensures from <= i <= n && a[i] != delim && forall j | from <= j < i :: a[j] == delim
    ensures Strtok(a[from..n], delim) == Strtok(a[i..n], delim)
    ensures i == n <==> Strtok(a[from..n], delim) == NoToken
  {
    i := from;
    while a[i] == delim
      invariant from <= i <= n
      invariant forall j | from <= j < i :: a[j] == delim
      invariant Strtok(a[i..n], delim) == Strtok(a[from..n], delim)
      decreases n - i
    {
      assert a[i..n][0] == delim && a[i..n][1..] == a[i + 1..n];
      i := i + 1;
    }
    assert i < n ==> a[i..n][0] == a[i];
  }

  method WordEnd(a: array<char>, word: nat, delim: char, ghost n: nat) returns (i: nat)
    requires TextAt(a, word, n) && delim != '\0' && word < n && a[word] != delim
    ensures word < i <= n && (a[i] == '\0' || a[i] == delim)
    ensures forall j | word <= j < i :: a[j] != delim
    ensures Strtok(a[word..n], delim) == Token(a[word..i], if i < n then a[i + 1..n] else "")
  {
    i := word + 1;
    while a[i] != '\0' && a[i] != delim
      invariant word < i <= n
      invariant forall j | word <= j < i :: a[j] != delim
      decreases n - i
    {
      i := i + 1;
    }
    ghost var s := a[word..n];
    assert s[0] == a[word] && s[..i - word] == a[word..i];
    if i < n {
      assert s[i - word + 1..] == a[i + 1..n];
    }
    IndexOfIs(s, delim, i - word);
  }

  /** The first word, before anything is written. */
  method FindWord(a: array<char>, from: nat, delim: char, ghost n: nat) returns (word: int, end: nat)
    requires TextAt(a, from, n) && delim != '\0'
    ensures word == -1 <==> Strtok(a[from..n], delim) == NoToken
    ensures word != -1 ==>
      && from <= word < end <= n
      && Strtok(a[from..n], delim) == Token(a[word..end], if end < n then a[end + 1..n] else "")
      && (forall i | from <= i < word :: a[i] == delim)
      && (forall i | word <= i < end :: a[i] != delim)
      && (end < n ==> a[end] == delim)
  {
    var start := SkipDelim(a, from, delim, n);
    if a[start] == '\0' {
      return -1, 0;
    }
    var i := WordEnd(a, start, delim, n);
    return start, i;
  }

  /** Two texts where there was one. */
  method Cut(a: array<char>, word: nat, i: nat, ghost n: nat)
    requires TextAt(a, word, n) && word <= i < n
    modifies a
    ensures TextAt(a, word, i) && TextAt(a, i + 1, n)
    ensures a[word..i] == old(a[word..i]) && a[i + 1..n] == old(a[i + 1..n])
    ensures forall j | 0 <= j < a.Length && j != i :: a[j] == old(a[j])
  {
    a[i] := '\0';
  }

  /** The same in the buffer. The word found is `a[word..end]`, ended by a NUL written over its
      delimiter, and the next call goes on at `last`; nothing else is written. */
  method StrTok(a: array<char>, from: nat, delim: char, ghost n: nat)
    returns (word: int, end: nat, last: nat)
    requires TextAt(a, from, n) && delim != '\0'
    modifies a
    ensures word == -1 <==> Strtok(old(a[from..n]), delim) == NoToken
    ensures word != -1 ==>
      && from <= word < end <= n
      && TextAt(a, word, end) && TextAt(a, last, n)
      && Strtok(old(a[from..n]), delim) == Token(a[word..end], a[last..n])
      && last == (if end < n then end + 1 else n)
      && (forall i | from <= i < word :: old(a[i]) == delim)
      && (forall i | word <= i < end :: old(a[i]) != delim)
      && (end < n ==> old(a[end]) == delim)
      && (forall i | 0 <= i < a.Length && i != end :: a[i] == old(a[i]))
  {
    word, end := FindWord(a, from, delim, n);
    if word == -1 {
      return -1, 0, 0;
    }
    if a[end] == '\0' {
      return word, end, end;
    }
    Cut(a, word, end, n);
    return word, end, end + 1;
  }
}
