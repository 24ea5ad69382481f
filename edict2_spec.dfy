/**
 * The EDICT2 loader of src/TextProcessor.cpp as pure functions: the
 * five-state line machine of loadDictionary, one character per Step, and
 * the bounded copy that getDictionaryResults makes of an entry.
 *
 * Offsets into the raw dictionary buffer stand in for the `const char*`
 * values of the source's hash map.
 */
module EDict2 {
  import opened Wrappers

  /** The loader's read states, in the order of the source's enum. */
  datatype ReadState = VersionNumber | JapaneseWord | Reading | EnglishDefinition | EntryId

  /** Why a load stops. */
  datatype LoadError =
      /** A newline reached in a state other than VersionNumber or EntryId
          (the source asserts here). */
    | MalformedLine(offset: nat)
      /** A character that would be written past the end of the pending-word
          buffer (the source writes out of bounds here). */
    | WordTooLong(offset: nat)

  /** Capacity of the pending-word buffer `char buffer[1024]`. */
  const WordBufferSize: nat := 1024

  /**
   * Everything the loop carries from one character to the next:
   * `readState`, the pending word (`buffer` up to `bufferWriteHead`),
   * `beginningOfLine` (None for the null pointer) and the dictionary.
   */
  datatype Loader = Loader(state: ReadState, pending: seq<char>, lineStart: Option<nat>, index: map<string, nat>)

  /** The loop's state before the first character. */
  const Start: Loader := Loader(VersionNumber, [], None, map[])

  /** In Reading the line start has always been recorded. */
  predicate Consistent(s: Loader) {
    s.state == Reading ==> s.lineStart.Some?
  }

  /**
   * The key `std::string(newKey)` builds from a copied word: everything up
   * to the first NUL character.
   */
  function CString(word: seq<char>): (key: string)
    ensures |key| <= |word| && key == word[..|key|]
    ensures '\0' !in key
    ensures |key| < |word| ==> word[|key|] == '\0'
  {
    if word == [] || word[0] == '\0' then [] else [word[0]] + CString(word[1..])
  }

  /** A C string read from a word ends exactly at the word's first NUL. */
  lemma {:induction false} CStringStopsAt(v: seq<char>, k: nat)
    requires k < |v| && v[k] == '\0' && forall j :: 0 <= j < k ==> v[j] != '\0'
    ensures CString(v) == v[..k]
  {
    if k > 0 {
      CStringStopsAt(v[1..], k - 1);
      assert v[..k] == [v[0]] + v[1..][..k - 1];
    }
  }

  /** The offset of the first character of the line holding offset i. */
  function LineStart(raw: seq<char>, i: nat): (p: nat)
    requires i <= |raw|
    ensures p <= i
    ensures p > 0 ==> raw[p - 1] == '\n'
    ensures forall j :: p <= j < i ==> raw[j] != '\n'
  {
    if i == 0 then 0
    else if raw[i - 1] == '\n' then i
    else LineStart(raw, i - 1)
  }

  /** The characters `/EntL` start at offset i (only in-bounds reads are made). */
  predicate IsEntryIdMarker(raw: seq<char>, i: nat): (b: bool)
    ensures b <==> i + 5 <= |raw| && raw[i..i + 5] == "/EntL"
  {
    i + 4 < |raw| && raw[i] == '/' && raw[i + 1] == 'E' && raw[i + 2] == 'n'
    && raw[i + 3] == 't' && raw[i + 4] == 'L'
  }

  /** Characters that end a pending word in the given state. */
  predicate IsSeparator(state: ReadState, c: char) {
    match state
    case JapaneseWord => c == '/' || c == '[' || c == ';'
    case Reading => c == ']' || c == ';'
    case _ => false
  }

  /** FINISH_ADD_WORD: insert a non-empty pending word and clear it. */
  function FinishAddWord(s: Loader): (t: Loader)
    requires s.lineStart.Some?
    ensures t.pending == [] && t.state == s.state && t.lineStart == s.lineStart
    ensures s.pending == [] ==> t.index == s.index
  {
    if s.pending == [] then s
    else s.(pending := [], index := s.index[CString(s.pending) := s.lineStart.value])
  }

  /**
   * FINISH_ADD_WORD maps the pending word's key to the line start, keeps
   * every other key, and adds no key but that one.
   */
  lemma FinishAddWordIndex(s: Loader)
    requires s.lineStart.Some?
    ensures var t := FinishAddWord(s);
      && (s.pending != [] ==> CString(s.pending) in t.index && t.index[CString(s.pending)] == s.lineStart.value)
      && (forall k :: k in s.index && k != CString(s.pending) ==> k in t.index && t.index[k] == s.index[k])
      && (forall k :: k in t.index ==> k in s.index || k == CString(s.pending))
  {
  }

  /** Append one character to the pending word, unless the buffer is full. */
  function Accumulate(s: Loader, c: char, i: nat): (r: Result<Loader, LoadError>)
    ensures |s.pending| < WordBufferSize <==> r.Ok?
    ensures r.Ok? ==> r.value == s.(pending := s.pending + [c])
    ensures r.Err? ==> r.error == WordTooLong(i)
  {
    if |s.pending| < WordBufferSize then Ok(s.(pending := s.pending + [c]))
    else Err(WordTooLong(i))
  }

  /** One iteration of the loop of loadDictionary, on the character at offset i. */
  function Step(raw: seq<char>, i: nat, s: Loader): (r: Result<Loader, LoadError>)
    requires i < |raw| && Consistent(s)
    ensures r.Ok? ==> Consistent(r.value)
    ensures r.Err? ==> r.error.offset == i
  {
    var c := raw[i];
    if c == '\n' then
      if s.state == VersionNumber || s.state == EntryId then
        Ok(s.(state := JapaneseWord, lineStart := None))
      else
        Err(MalformedLine(i))
    else
      match s.state
      case VersionNumber => Ok(s)
      case JapaneseWord =>
        var s := if s.lineStart.None? then s.(lineStart := Some(i)) else s;
        if c == '/' then Ok(FinishAddWord(s).(state := EnglishDefinition))
        else if c == '[' then Ok(FinishAddWord(s).(state := Reading))
        else if c == ';' then Ok(FinishAddWord(s))
        else if c == ' ' then Ok(s)
        else Accumulate(s, c, i)
      case Reading =>
        if c == ']' then Ok(FinishAddWord(s).(state := JapaneseWord))
        else if c == ';' then Ok(FinishAddWord(s))
        else if c == ' ' then Ok(s)
        else Accumulate(s, c, i)
      case EnglishDefinition =>
        if IsEntryIdMarker(raw, i) then Ok(s.(state := EntryId)) else Ok(s)
      case EntryId => Ok(s)
  }

  /** The loop run over the offsets lo up to (excluding) hi, starting in s. */
  function Steps(raw: seq<char>, lo: nat, hi: nat, s: Loader): (r: Result<Loader, LoadError>)
    requires lo <= hi <= |raw| && Consistent(s)
    ensures r.Ok? ==> Consistent(r.value)
    ensures r.Err? ==> lo <= r.error.offset < hi
    decreases hi
  {
    if hi == lo then Ok(s)
    else
      match Steps(raw, lo, hi - 1, s)
      case Err(e) => Err(e)
      case Ok(t) => Step(raw, hi - 1, t)
  }

  /** The whole of loadDictionary over the buffer contents. */
  function Load(raw: seq<char>): (r: Result<Loader, LoadError>)
    ensures r.Ok? ==> Consistent(r.value)
    ensures r.Err? ==> r.error.offset < |raw|
  {
    Steps(raw, 0, |raw|, Start)
  }

  /** A failed step is not undone by later characters: the load stops there. */
  lemma {:induction false} ErrorSticks(raw: seq<char>, lo: nat, mid: nat, hi: nat, s: Loader)
    requires lo <= mid <= hi <= |raw| && Consistent(s)
    requires Steps(raw, lo, mid, s).Err?
    ensures Steps(raw, lo, hi, s) == Steps(raw, lo, mid, s)
    decreases hi
  {
    if mid < hi {
      ErrorSticks(raw, lo, mid, hi - 1, s);
    }
  }

  /** A run that reaches offset i and takes one more step. */
  lemma StepsNext(raw: seq<char>, i: nat, s: Loader, t: Loader)
    requires i < |raw| && Steps(raw, 0, i, Start) == Ok(s) && Step(raw, i, s) == Ok(t)
    ensures Steps(raw, 0, i + 1, Start) == Ok(t)
  {
  }

  /** A run that reaches offset i and fails there is a failed load. */
  lemma LoadStopsAt(raw: seq<char>, i: nat, s: Loader, e: LoadError)
    requires i < |raw| && Steps(raw, 0, i, Start) == Ok(s) && Step(raw, i, s) == Err(e)
    ensures Load(raw) == Err(e)
  {
    ErrorSticks(raw, 0, i + 1, |raw|, Start);
  }

  /**
   * What getDictionaryResults copies from an entry starting at offset
   * start into a buffer of limit characters: up to and including the
   * first newline, never more than limit characters, and never past the
   * end of the raw buffer.
   */
  function EntryText(raw: seq<char>, start: nat, limit: nat): (t: seq<char>)
    ensures |t| <= limit
    decreases limit
  {
    if limit == 0 || start >= |raw| then []
    else if raw[start] == '\n' then ['\n']
    else [raw[start]] + EntryText(raw, start + 1, limit - 1)
  }

  /**
   * The copied text is a piece of the raw buffer from start on, holds a
   * newline at most as its last character, and stops early only at the
   * first newline or at the end of the buffer.
   */
  lemma {:induction false} EntryTextIsLinePrefix(raw: seq<char>, start: nat, limit: nat)
    ensures var t := EntryText(raw, start, limit);
      && (t == [] || (start + |t| <= |raw| && t == raw[start..start + |t|]))
      && (forall k :: 0 <= k < |t| - 1 ==> t[k] != '\n')
      && (|t| == limit || start + |t| >= |raw| || (|t| > 0 && t[|t| - 1] == '\n'))
    decreases limit
  {
    if limit > 0 && start < |raw| && raw[start] != '\n' {
      EntryTextIsLinePrefix(raw, start + 1, limit - 1);
    }
  }
}
