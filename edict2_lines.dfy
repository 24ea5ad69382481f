/**
 * Well-formed EDICT2 lines, `word1;word2 [reading1;reading2] /gloss/EntLid`,
 * and what loading one does: every word and every reading becomes a key
 * mapped to the offset where the line starts.
 */
module EDict2Lines {
  import opened Wrappers
  import opened SeqFacts
  import opened EDict2
  import EDict2Properties

  /** A character that neither ends a word nor is skipped. */
  predicate IsWordChar(c: char) {
    c != '\n' && c != '/' && c != '[' && c != ']' && c != ';' && c != ' ' && c != '\0'
  }

  /** A surface form or reading the loader stores unchanged. */
  predicate IsWord(w: string) {
    0 < |w| <= WordBufferSize && forall j :: 0 <= j < |w| ==> IsWordChar(w[j])
  }

  predicate AllWords(ws: seq<string>) {
    forall j :: 0 <= j < |ws| ==> IsWord(ws[j])
  }

  /** Words separated by `;`. */
  function Join(ws: seq<string>): string {
    if ws == [] then []
    else if |ws| == 1 then ws[0]
    else ws[0] + ";" + Join(ws[1..])
  }

  /** One dictionary entry: surface forms, readings, the gloss text and the entry ID. */
  datatype Entry = Entry(words: seq<string>, readings: seq<string>, gloss: string, id: string)

  /** An entry whose line the loader reads as intended. */
  predicate WellFormed(e: Entry) {
    |e.words| > 0 && AllWords(e.words) && AllWords(e.readings) && '\n' !in e.gloss && '\n' !in e.id
  }

  /** What follows the surface forms up to the gloss: the optional readings and ` /`. */
  function ReadingsAndSlash(rs: seq<string>): string {
    (if rs == [] then "" else " [" + Join(rs) + "]") + " /"
  }

  /** The entry's line without its newline: `words [readings] /gloss/EntLid`. */
  function EntryLine(e: Entry): string {
    Join(e.words) + ReadingsAndSlash(e.readings) + e.gloss + "/EntL" + e.id
  }

  /** The dictionary after inserting every word of ws with value v, in order. */
  function InsertAll(index: map<string, nat>, ws: seq<string>, v: nat): (r: map<string, nat>)
    decreases |ws|
  {
    if ws == [] then index else InsertAll(index[ws[0] := v], ws[1..], v)
  }

  /** Running from lo to hi is running from lo to mid and then from mid to hi. */
  lemma {:induction false} StepsSplit(raw: seq<char>, lo: nat, mid: nat, hi: nat, s: Loader)
    requires lo <= mid <= hi <= |raw| && Consistent(s)
    ensures Steps(raw, lo, hi, s) ==
      match Steps(raw, lo, mid, s)
      case Err(e) => Err(e)
      case Ok(t) => Steps(raw, mid, hi, t)
    decreases hi
  {
    if hi > mid {
      StepsSplit(raw, lo, mid, hi - 1, s);
    }
  }

  /** Once a run from lo reaches mid in state t, the rest continues from t. */
  lemma StepsThen(raw: seq<char>, lo: nat, mid: nat, hi: nat, s: Loader, t: Loader)
    requires lo <= mid <= hi <= |raw| && Consistent(s) && Consistent(t)
    requires Steps(raw, lo, mid, s) == Ok(t)
    ensures Steps(raw, lo, hi, s) == Steps(raw, mid, hi, t)
  {
    StepsSplit(raw, lo, mid, hi, s);
  }

  /** A run to mid followed by a run from mid is a run over both. */
  lemma Chain(raw: seq<char>, lo: nat, mid: nat, hi: nat, s: Loader, t: Loader, u: Loader)
    requires lo <= mid <= hi <= |raw| && Consistent(s) && Consistent(t)
    requires Steps(raw, lo, mid, s) == Ok(t) && Steps(raw, mid, hi, t) == Ok(u)
    ensures Steps(raw, lo, hi, s) == Ok(u)
  {
    StepsSplit(raw, lo, mid, hi, s);
  }

  /** Two spellings of the same end offset give the same run. */
  lemma SameEnd(raw: seq<char>, lo: nat, hi: nat, hi': nat, s: Loader)
    requires lo <= hi <= |raw| && hi == hi' && Consistent(s)
    ensures Steps(raw, lo, hi, s) == Steps(raw, lo, hi', s)
  {
  }

  /** Running over the next single character is one Step. */
  lemma OneStep(raw: seq<char>, p: nat, s: Loader)
    requires p < |raw| && Consistent(s)
    ensures Steps(raw, p, p + 1, s) == Step(raw, p, s)
  {
  }

  /** The characters of a word, which ends at q, are appended to the pending word. */
  lemma {:induction false} WordRun(raw: seq<char>, p: nat, q: nat, w: string, k: nat, s: Loader)
    requires (s.state == JapaneseWord || s.state == Reading) && s.lineStart.Some?
    requires IsWord(w) && |s.pending| + |w| <= WordBufferSize && k <= |w|
    requires q == p + |w| <= |raw| && raw[p..q] == w
    ensures Steps(raw, p, p + k, s) == Ok(s.(pending := s.pending + w[..k]))
  {
    if k > 0 {
      WordRun(raw, p, q, w, k - 1, s);
      var t := s.(pending := s.pending + w[..k - 1]);
      assert raw[p + k - 1] == w[k - 1] by {
        assert raw[p + k - 1] == raw[p..q][k - 1];
      }
      assert IsWordChar(w[k - 1]);
      assert Step(raw, p + k - 1, t) == Ok(t.(pending := t.pending + [w[k - 1]]));
      assert s.pending + w[..k] == (s.pending + w[..k - 1]) + [w[k - 1]];
    } else {
      assert s.pending + w[..0] == s.pending;
    }
  }

  /** A word ending at q followed by `;`: the word is committed and the state is kept. */
  lemma WordThenSemicolon(raw: seq<char>, p: nat, q: nat, r: nat, w: string, s: Loader, t: Loader)
    requires (s.state == JapaneseWord || s.state == Reading) && s.lineStart.Some? && s.pending == []
    requires IsWord(w) && q == p + |w| && r == q + 1 && r <= |raw|
    requires raw[p..q] == w && raw[q] == ';'
    requires t == s.(index := s.index[w := s.lineStart.value])
    ensures Steps(raw, p, r, s) == Ok(t)
  {
    var s1 := s.(pending := w);
    assert Steps(raw, p, q, s) == Ok(s1) by {
      WordRun(raw, p, q, w, |w|, s);
      assert s.pending + w[..|w|] == w;
      SameEnd(raw, p, p + |w|, q, s);
    }
    assert Steps(raw, q, r, s1) == Ok(t) by {
      CStringOfWord(w);
      SemicolonStep(raw, q, s1, t);
      OneStep(raw, q, s1);
      SameEnd(raw, q, q + 1, r, s1);
    }
    Chain(raw, p, q, r, s, s1, t);
  }

  /** A `;` commits the pending word, whose key is the word itself. */
  lemma SemicolonStep(raw: seq<char>, q: nat, s: Loader, t: Loader)
    requires (s.state == JapaneseWord || s.state == Reading) && s.lineStart.Some?
    requires q < |raw| && raw[q] == ';' && s.pending != [] && CString(s.pending) == s.pending
    requires t == s.(pending := [], index := s.index[s.pending := s.lineStart.value])
    ensures Step(raw, q, s) == Ok(t)
  {
  }

  /**
   * A `;`-separated list of words, starting with an empty pending word:
   * every word but the last is committed, the last one is left pending.
   */
  lemma {:induction false} JoinRun(raw: seq<char>, p: nat, end: nat, ws: seq<string>, s: Loader, t: Loader)
    requires |ws| > 0 && AllWords(ws)
    requires (s.state == JapaneseWord || s.state == Reading) && s.lineStart.Some? && s.pending == []
    requires end == p + |Join(ws)| <= |raw| && raw[p..end] == Join(ws)
    requires t == s.(pending := ws[|ws| - 1], index := InsertAll(s.index, ws[..|ws| - 1], s.lineStart.value))
    ensures Steps(raw, p, end, s) == Ok(t)
    decreases |ws|
  {
    var w := ws[0];
    if |ws| == 1 {
      WordRun(raw, p, end, w, |w|, s);
      assert s.pending + w[..|w|] == w;
      assert ws[..0] == [];
      SameEnd(raw, p, p + |w|, end, s);
    } else {
      var v := s.lineStart.value;
      var q := p + |w|;
      var r := q + 1;
      JoinSlices(raw, p, q, r, end, ws);
      var s2 := s.(index := s.index[w := v]);
      assert t == s2.(pending := ws[1..][|ws[1..]| - 1], index := InsertAll(s2.index, ws[1..][..|ws[1..]| - 1], v)) by {
        InsertAllCons(s.index, ws, v);
      }
      JoinRun(raw, r, end, ws[1..], s2, t);
      WordThenSemicolon(raw, p, q, r, w, s, s2);
      Chain(raw, p, r, end, s, s2, t);
    }
  }

  /** The pieces of a raw run holding Join(ws) with at least two words. */
  lemma JoinSlices(raw: seq<char>, p: nat, q: nat, r: nat, end: nat, ws: seq<string>)
    requires |ws| > 1
    requires end == p + |Join(ws)| <= |raw| && raw[p..end] == Join(ws)
    requires q == p + |ws[0]| && r == q + 1
    ensures r <= end == r + |Join(ws[1..])|
    ensures raw[p..q] == ws[0] && raw[q] == ';' && raw[r..end] == Join(ws[1..])
  {
    var w := ws[0];
    assert Join(ws) == w + ";" + Join(ws[1..]);
    assert raw[p..q] == raw[p..end][..|w|];
    assert raw[q] == raw[p..end][|w|];
    assert raw[r..end] == raw[p..end][|w| + 1..];
  }

  /** Inserting all but the last of ws is inserting the first, then all but the last of the rest. */
  lemma InsertAllCons(index: map<string, nat>, ws: seq<string>, v: nat)
    requires |ws| > 1
    ensures InsertAll(index, ws[..|ws| - 1], v) == InsertAll(index[ws[0] := v], ws[1..][..|ws[1..]| - 1], v)
    ensures ws[1..][|ws[1..]| - 1] == ws[|ws| - 1]
  {
    assert ws[..|ws| - 1][1..] == ws[1..][..|ws[1..]| - 1];
  }

  /** A word holds no NUL, so its C-string key is the word itself. */
  lemma {:induction false} CStringOfWord(w: string)
    requires '\0' !in w
    ensures CString(w) == w
  {
    if w != [] {
      CStringOfWord(w[1..]);
    }
  }

  /** Inserting a list and then one more word is inserting the longer list. */
  lemma {:induction false} InsertAllSnoc(index: map<string, nat>, ws: seq<string>, v: nat)
    requires |ws| > 0
    ensures InsertAll(index, ws[..|ws| - 1], v)[ws[|ws| - 1] := v] == InsertAll(index, ws, v)
    decreases |ws|
  {
    if |ws| == 1 {
      assert ws[..0] == [];
      assert ws[1..] == [];
    } else {
      InsertAllCons(index, ws, v);
      InsertAllSnoc(index[ws[0] := v], ws[1..], v);
    }
  }

  /** A piece of a run of raw characters that spells out h. */
  lemma Piece(raw: seq<char>, p: nat, h: string, x: nat, y: nat)
    requires p + |h| <= |raw| && raw[p..p + |h|] == h && x <= y <= |h|
    ensures raw[p + x..p + y] == h[x..y]
    ensures x < |h| ==> raw[p + x] == h[x]
  {
    forall k | 0 <= k < y - x
      ensures raw[p + x..p + y][k] == h[x..y][k]
    {
      assert h[x..y][k] == h[x + k] == raw[p..p + |h|][x + k];
    }
    if x < |h| {
      assert raw[p + x] == raw[p..p + |h|][x];
    }
  }

  /**
   * The first character of a line sets the line start; a run that begins
   * there behaves as if the start had been recorded already.
   */
  lemma LineStartRecorded(raw: seq<char>, p: nat, hi: nat, s: Loader)
    requires p < hi <= |raw| && raw[p] != '\n'
    requires s.state == JapaneseWord && s.lineStart.None?
    ensures Steps(raw, p, hi, s) == Steps(raw, p, hi, s.(lineStart := Some(p)))
  {
    var s1 := s.(lineStart := Some(p));
    assert Step(raw, p, s) == Step(raw, p, s1);
    OneStep(raw, p, s);
    OneStep(raw, p, s1);
    StepsSplit(raw, p, p + 1, hi, s);
    StepsSplit(raw, p, p + 1, hi, s1);
  }

  /** ` [` after a word: the word is committed and the readings begin. */
  lemma OpenReadings(raw: seq<char>, i: nat, j: nat, s: Loader, t: Loader)
    requires s.state == JapaneseWord && s.lineStart.Some? && IsWord(s.pending)
    requires j == i + 2 <= |raw| && raw[i] == ' ' && raw[i + 1] == '['
    requires t == s.(state := Reading, pending := [], index := s.index[s.pending := s.lineStart.value])
    ensures Steps(raw, i, j, s) == Ok(t)
  {
    CStringOfWord(s.pending);
    OneStep(raw, i, s);
    OneStep(raw, i + 1, s);
    SameEnd(raw, i + 1, i + 2, j, s);
    Chain(raw, i, i + 1, j, s, s, t);
  }

  /** `]` after a reading: the reading is committed and the surface forms resume. */
  lemma CloseReadings(raw: seq<char>, i: nat, j: nat, s: Loader, t: Loader)
    requires s.state == Reading && s.lineStart.Some? && IsWord(s.pending)
    requires j == i + 1 <= |raw| && raw[i] == ']'
    requires t == s.(state := JapaneseWord, pending := [], index := s.index[s.pending := s.lineStart.value])
    ensures Steps(raw, i, j, s) == Ok(t)
  {
    CStringOfWord(s.pending);
    OneStep(raw, i, s);
    SameEnd(raw, i, i + 1, j, s);
  }

  /** ` /` ends the words section: a pending word is committed and the gloss begins. */
  lemma OpenGloss(raw: seq<char>, i: nat, j: nat, s: Loader, t: Loader)
    requires s.state == JapaneseWord && s.lineStart.Some? && (s.pending == [] || IsWord(s.pending))
    requires j == i + 2 <= |raw| && raw[i] == ' ' && raw[i + 1] == '/'
    requires t == s.(state := EnglishDefinition, pending := [],
                     index := if s.pending == [] then s.index else s.index[s.pending := s.lineStart.value])
    ensures Steps(raw, i, j, s) == Ok(t)
  {
    if s.pending != [] {
      CStringOfWord(s.pending);
    }
    OneStep(raw, i, s);
    OneStep(raw, i + 1, s);
    SameEnd(raw, i + 1, i + 2, j, s);
    Chain(raw, i, i + 1, j, s, s, t);
  }

  /**
   * Inside the gloss or the entry ID, characters other than a newline
   * change nothing but the state, which becomes EntryId at the first
   * `/EntL` and stays so.
   */
  lemma {:induction false} QuietRun(raw: seq<char>, lo: nat, hi: nat, s: Loader)
    requires lo <= hi <= |raw| && (s.state == EnglishDefinition || s.state == EntryId)
    requires forall j :: lo <= j < hi ==> raw[j] != '\n'
    ensures Steps(raw, lo, hi, s) == Ok(s.(state :=
      if s.state == EntryId || exists j :: lo <= j < hi && IsEntryIdMarker(raw, j) then EntryId
      else EnglishDefinition))
    decreases hi
  {
    if hi > lo {
      QuietRun(raw, lo, hi - 1, s);
      if IsEntryIdMarker(raw, hi - 1) {
        assert lo <= hi - 1 < hi && IsEntryIdMarker(raw, hi - 1);
      } else if exists j :: lo <= j < hi && IsEntryIdMarker(raw, j) {
        var j :| lo <= j < hi && IsEntryIdMarker(raw, j);
        assert lo <= j < hi - 1;
      }
    }
  }

  /** A non-empty `;`-list of words starts with the first character of its first word. */
  lemma JoinHead(ws: seq<string>)
    requires |ws| > 0 && AllWords(ws)
    ensures |Join(ws)| > 0 && Join(ws)[0] == ws[0][0] && IsWordChar(Join(ws)[0])
  {
    assert IsWord(ws[0]);
  }

  /**
   * ` [readings]` after a surface form: the pending surface form and then
   * every reading are committed, and the surface forms resume.
   */
  lemma ReadingsRun(raw: seq<char>, i: nat, e: nat, rs: seq<string>, s: Loader, u: Loader)
    requires s.state == JapaneseWord && s.lineStart.Some? && IsWord(s.pending)
    requires |rs| > 0 && AllWords(rs)
    requires e == i + |Join(rs)| + 3 <= |raw| && raw[i..e] == " [" + Join(rs) + "]"
    requires u == s.(pending := [], index := InsertAll(s.index[s.pending := s.lineStart.value], rs, s.lineStart.value))
    ensures Steps(raw, i, e, s) == Ok(u)
  {
    var v := s.lineStart.value;
    var a := i + 2;
    var b := e - 1;
    ReadingsPieces(raw, i, a, b, e, rs);
    var s3 := s.(state := Reading, pending := [], index := s.index[s.pending := v]);
    OpenReadings(raw, i, a, s, s3);
    var s4 := s3.(pending := rs[|rs| - 1], index := InsertAll(s3.index, rs[..|rs| - 1], v));
    JoinRun(raw, a, b, rs, s3, s4);
    assert IsWord(rs[|rs| - 1]);
    assert u == s4.(state := JapaneseWord, pending := [], index := s4.index[s4.pending := v]) by {
      InsertAllSnoc(s3.index, rs, v);
    }
    CloseReadings(raw, b, e, s4, u);
    Chain(raw, a, b, e, s3, s4, u);
    Chain(raw, i, a, e, s, s3, u);
  }

  /** The pieces of ` [readings]`: the opening, the `;`-list, and the closing bracket at b. */
  lemma ReadingsPieces(raw: seq<char>, i: nat, a: nat, b: nat, e: nat, rs: seq<string>)
    requires e == i + |Join(rs)| + 3 <= |raw| && raw[i..e] == " [" + Join(rs) + "]"
    requires a == i + 2 && b == e - 1
    ensures raw[i] == ' ' && raw[i + 1] == '['
    ensures b == a + |Join(rs)| && raw[a..b] == Join(rs) && raw[b] == ']'
  {
    var h := " [" + Join(rs) + "]";
    assert |h| == e - i;
    Piece(raw, i, h, 0, 0);
    Piece(raw, i, h, 1, 1);
    Piece(raw, i, h, 2, |h| - 1);
    Piece(raw, i, h, |h| - 1, |h| - 1);
    assert h[2..|h| - 1] == Join(rs);
  }

  /**
   * What follows the last surface form: the optional readings and ` /`.
   * The pending surface form and every reading are committed, and the
   * gloss begins.
   */
  lemma AfterSurfaceForms(raw: seq<char>, i: nat, e: nat, rs: seq<string>, s: Loader, u: Loader)
    requires s.state == JapaneseWord && s.lineStart.Some? && IsWord(s.pending) && AllWords(rs)
    requires e == i + |ReadingsAndSlash(rs)| <= |raw| && raw[i..e] == ReadingsAndSlash(rs)
    requires u == s.(state := EnglishDefinition, pending := [],
                     index := InsertAll(s.index[s.pending := s.lineStart.value], rs, s.lineStart.value))
    ensures Steps(raw, i, e, s) == Ok(u)
  {
    var v := s.lineStart.value;
    if rs == [] {
      assert raw[i] == raw[i..e][0] && raw[i + 1] == raw[i..e][1];
      OpenGloss(raw, i, e, s, u);
    } else {
      var c := e - 2;
      var s5 := s.(pending := [], index := InsertAll(s.index[s.pending := v], rs, v));
      SlashPieces(raw, i, c, e, rs);
      ReadingsRun(raw, i, c, rs, s, s5);
      OpenGloss(raw, c, e, s5, u);
      Chain(raw, i, c, e, s, s5, u);
    }
  }

  /** The pieces of ` [readings] /`: the readings up to c, then ` /`. */
  lemma SlashPieces(raw: seq<char>, i: nat, c: nat, e: nat, rs: seq<string>)
    requires rs != []
    requires e == i + |ReadingsAndSlash(rs)| <= |raw| && raw[i..e] == ReadingsAndSlash(rs)
    requires c == e - 2
    ensures c == i + |Join(rs)| + 3 && raw[i..c] == " [" + Join(rs) + "]"
    ensures raw[c] == ' ' && raw[c + 1] == '/'
  {
    var h := ReadingsAndSlash(rs);
    assert h == (" [" + Join(rs) + "]") + " /";
    assert raw[i..c] == raw[i..e][..|h| - 2];
    assert raw[c] == raw[i..e][|h| - 2];
    assert raw[c + 1] == raw[i..e][|h| - 1];
  }

  /**
   * The words section and the ` /` after it: every surface form and every
   * reading is committed with the line's start offset, and the gloss begins.
   */
  lemma HeadRun(raw: seq<char>, p: nat, j: nat, e: nat, ws: seq<string>, rs: seq<string>, s: Loader, u: Loader)
    requires |ws| > 0 && AllWords(ws) && AllWords(rs)
    requires s.state == JapaneseWord && s.pending == [] && s.lineStart.None?
    requires j == p + |Join(ws)| && e == j + |ReadingsAndSlash(rs)| <= |raw|
    requires raw[p..j] == Join(ws) && raw[j..e] == ReadingsAndSlash(rs)
    requires u == Loader(EnglishDefinition, [], Some(p), InsertAll(InsertAll(s.index, ws, p), rs, p))
    ensures Steps(raw, p, e, s) == Ok(u)
  {
    JoinHead(ws);
    assert raw[p] == raw[p..j][0];
    LineStartRecorded(raw, p, e, s);
    HeadRunFrom(raw, p, j, e, ws, rs, s.(lineStart := Some(p)), u);
  }

  /** HeadRun once the first character has recorded the line start. */
  lemma HeadRunFrom(raw: seq<char>, p: nat, j: nat, e: nat, ws: seq<string>, rs: seq<string>, s: Loader, u: Loader)
    requires |ws| > 0 && AllWords(ws) && AllWords(rs)
    requires s.state == JapaneseWord && s.pending == [] && s.lineStart == Some(p)
    requires j == p + |Join(ws)| && e == j + |ReadingsAndSlash(rs)| <= |raw|
    requires raw[p..j] == Join(ws) && raw[j..e] == ReadingsAndSlash(rs)
    requires u == Loader(EnglishDefinition, [], Some(p), InsertAll(InsertAll(s.index, ws, p), rs, p))
    ensures Steps(raw, p, e, s) == Ok(u)
  {
    var s2 := s.(pending := ws[|ws| - 1], index := InsertAll(s.index, ws[..|ws| - 1], p));
    JoinRun(raw, p, j, ws, s, s2);
    assert IsWord(ws[|ws| - 1]);
    assert u == s2.(state := EnglishDefinition, pending := [], index := InsertAll(s2.index[s2.pending := p], rs, p)) by {
      InsertAllSnoc(s.index, ws, p);
    }
    AfterSurfaceForms(raw, j, e, rs, s2, u);
    Chain(raw, p, j, e, s, s2, u);
  }

  /** A run spelling x + y spells x and then y. */
  lemma Split2(raw: seq<char>, p: nat, x: string, y: string)
    requires p + |x + y| <= |raw| && raw[p..p + |x + y|] == x + y
    ensures raw[p..p + |x|] == x && raw[p + |x|..p + |x + y|] == y
  {
    Piece(raw, p, x + y, 0, |x|);
    Piece(raw, p, x + y, |x|, |x + y|);
    assert (x + y)[0..|x|] == x && (x + y)[|x|..|x + y|] == y;
  }

  /**
   * The gloss, the `/EntL` marker at m, the entry ID and the newline at e:
   * the marker moves the loader to EntryId, which accepts the newline, and
   * the next line starts afresh with the dictionary unchanged.
   */
  lemma TailRun(raw: seq<char>, i: nat, m: nat, e: nat, f: nat, gloss: string, id: string, s: Loader, t: Loader)
    requires s.state == EnglishDefinition && '\n' !in gloss && '\n' !in id
    requires m == i + |gloss| && e == m + 5 + |id| && f == e + 1 <= |raw|
    requires raw[i..m] == gloss && raw[m..m + 5] == "/EntL" && raw[m + 5..e] == id && raw[e] == '\n'
    requires t == s.(state := JapaneseWord, lineStart := None)
    ensures Steps(raw, i, f, s) == Ok(t)
  {
    forall j | i <= j < e
      ensures raw[j] != '\n'
    {
      if j < m {
        assert raw[j] == raw[i..m][j - i];
      } else if j < m + 5 {
        assert raw[j] == raw[m..m + 5][j - m];
      } else {
        assert raw[j] == raw[m + 5..e][j - m - 5];
      }
    }
    forall d | 0 <= d < 5
      ensures raw[m + d] == "/EntL"[d]
    {
      assert raw[m + d] == raw[m..m + 5][d];
    }
    assert IsEntryIdMarker(raw, m);
    QuietRun(raw, i, e, s);
    var s1 := s.(state := EntryId);
    OneStep(raw, e, s1);
    SameEnd(raw, e, e + 1, f, s1);
    Chain(raw, i, e, f, s, s1, t);
  }

  /** The runs an entry line falls into: surface forms, readings and ` /`, gloss, marker, ID, newline. */
  lemma EntryPieces(raw: seq<char>, p: nat, j: nat, k: nat, m: nat, e: nat, f: nat, en: Entry)
    requires j == p + |Join(en.words)| && k == j + |ReadingsAndSlash(en.readings)| && m == k + |en.gloss|
    requires e == p + |EntryLine(en)| && f == e + 1 <= |raw| && raw[p..f] == EntryLine(en) + "\n"
    ensures e == m + 5 + |en.id|
    ensures raw[p..j] == Join(en.words) && raw[j..k] == ReadingsAndSlash(en.readings)
    ensures raw[k..m] == en.gloss && raw[m..m + 5] == "/EntL"
    ensures raw[m + 5..e] == en.id && raw[e] == '\n'
  {
    var a := Join(en.words);
    var b := ReadingsAndSlash(en.readings);
    var l := EntryLine(en);
    Split2(raw, p, l, "\n");
    assert raw[e] == raw[e..f][0];
    Split2(raw, p, a + b + en.gloss + "/EntL", en.id);
    Split2(raw, p, a + b + en.gloss, "/EntL");
    Split2(raw, p, a + b, en.gloss);
    Split2(raw, p, a, b);
  }

  /**
   * Loading one well-formed entry line, newline included, from the start
   * of a line: every surface form and every reading of the entry is
   * inserted in order with the offset of the line's first character, and
   * the loader is ready for the next line.
   */
  lemma EntryRun(raw: seq<char>, p: nat, f: nat, en: Entry, s: Loader, t: Loader)
    requires WellFormed(en)
    requires s.state == JapaneseWord && s.pending == [] && s.lineStart.None?
    requires f == p + |EntryLine(en)| + 1 <= |raw| && raw[p..f] == EntryLine(en) + "\n"
    requires t == s.(index := InsertAll(InsertAll(s.index, en.words, p), en.readings, p))
    ensures Steps(raw, p, f, s) == Ok(t)
  {
    var j := p + |Join(en.words)|;
    var k := j + |ReadingsAndSlash(en.readings)|;
    var m := k + |en.gloss|;
    var e := f - 1;
    EntryPieces(raw, p, j, k, m, e, f, en);
    var s1 := Loader(EnglishDefinition, [], Some(p), InsertAll(InsertAll(s.index, en.words, p), en.readings, p));
    HeadRun(raw, p, j, k, en.words, en.readings, s, s1);
    TailRun(raw, k, m, e, f, en.gloss, en.id, s1, t);
    Chain(raw, p, k, f, s, s1, t);
  }

  /** The entry lines, each followed by its newline. */
  function Lines(es: seq<Entry>): string {
    if es == [] then "" else EntryLine(es[0]) + "\n" + Lines(es[1..])
  }

  /** A dictionary file: the version line, then one line per entry. */
  function DictionaryText(version: string, es: seq<Entry>): string {
    version + "\n" + Lines(es)
  }

  predicate AllWellFormed(es: seq<Entry>) {
    forall i :: 0 <= i < |es| ==> WellFormed(es[i])
  }

  /**
   * The dictionary after the lines of es, the first one starting at offset
   * p: each entry inserts its surface forms and then its readings with the
   * offset of its own line.
   */
  function Loaded(index: map<string, nat>, es: seq<Entry>, p: nat): map<string, nat>
    decreases |es|
  {
    if es == [] then index
    else Loaded(InsertAll(InsertAll(index, es[0].words, p), es[0].readings, p), es[1..], p + |EntryLine(es[0])| + 1)
  }

  /**
   * Loading a run of well-formed entry lines, from offset p up to offset
   * e, from the start of a line.
   */
  lemma {:induction false} LinesRun(raw: seq<char>, p: nat, e: nat, es: seq<Entry>, s: Loader)
    requires AllWellFormed(es)
    requires s.state == JapaneseWord && s.pending == [] && s.lineStart.None?
    requires e == p + |Lines(es)| <= |raw| && raw[p..e] == Lines(es)
    ensures Steps(raw, p, e, s) == Ok(s.(index := Loaded(s.index, es, p)))
    decreases |es|
  {
    if es == [] {
      assert Steps(raw, p, e, s) == Ok(s);
    } else {
      var q := p + |EntryLine(es[0])| + 1;
      var s1 := s.(index := InsertAll(InsertAll(s.index, es[0].words, p), es[0].readings, p));
      LinesHead(raw, p, q, e, es, s, s1);
      LinesRun(raw, q, e, es[1..], s1);
      LinesJoin(raw, p, q, e, es, s, s1);
    }
  }

  /** The first line of a run of entry lines, and the run that follows it. */
  lemma LinesHead(raw: seq<char>, p: nat, q: nat, e: nat, es: seq<Entry>, s: Loader, s1: Loader)
    requires es != [] && AllWellFormed(es)
    requires s.state == JapaneseWord && s.pending == [] && s.lineStart.None?
    requires e == p + |Lines(es)| <= |raw| && raw[p..e] == Lines(es)
    requires q == p + |EntryLine(es[0])| + 1
    requires s1 == s.(index := InsertAll(InsertAll(s.index, es[0].words, p), es[0].readings, p))
    ensures q <= e == q + |Lines(es[1..])| && raw[q..e] == Lines(es[1..])
    ensures Steps(raw, p, q, s) == Ok(s1)
    ensures AllWellFormed(es[1..])
  {
    LinesCons(es);
    Split2(raw, p, EntryLine(es[0]) + "\n", Lines(es[1..]));
    assert raw[p..q] == EntryLine(es[0]) + "\n";
    assert WellFormed(es[0]);
    EntryRun(raw, p, q, es[0], s, s1);
  }

  /** The first line's run followed by the rest's run is the run of all the lines. */
  lemma LinesJoin(raw: seq<char>, p: nat, q: nat, e: nat, es: seq<Entry>, s: Loader, s1: Loader)
    requires es != [] && s.state == JapaneseWord && s.lineStart.None?
    requires p <= q <= e <= |raw|
    requires q == p + |EntryLine(es[0])| + 1
    requires s1 == s.(index := InsertAll(InsertAll(s.index, es[0].words, p), es[0].readings, p))
    requires Steps(raw, p, q, s) == Ok(s1)
    requires Steps(raw, q, e, s1) == Ok(s1.(index := Loaded(s1.index, es[1..], q)))
    ensures Steps(raw, p, e, s) == Ok(s.(index := Loaded(s.index, es, p)))
  {
    LoadedCons(s.index, es, p, q);
    Chain(raw, p, q, e, s, s1, s1.(index := Loaded(s1.index, es[1..], q)));
  }

  /** A non-empty run of lines is its first line, a newline, and the rest. */
  lemma LinesCons(es: seq<Entry>)
    requires es != []
    ensures Lines(es) == EntryLine(es[0]) + "\n" + Lines(es[1..])
    ensures |Lines(es)| == |EntryLine(es[0])| + 1 + |Lines(es[1..])|
  {
  }

  lemma LoadedCons(index: map<string, nat>, es: seq<Entry>, p: nat, q: nat)
    requires es != [] && q == p + |EntryLine(es[0])| + 1
    ensures Loaded(index, es, p) == Loaded(InsertAll(InsertAll(index, es[0].words, p), es[0].readings, p), es[1..], q)
  {
  }

  /**
   * Completeness of the loader: a file made of a version line and
   * well-formed entry lines loads without error, and the dictionary maps
   * every surface form and every reading to the offset of its entry's line
   * (the last such line when a key repeats).
   */
  lemma LoadWellFormed(version: string, es: seq<Entry>)
    requires '\n' !in version && AllWellFormed(es)
    ensures Load(DictionaryText(version, es))
      == Ok(Loader(JapaneseWord, [], None, Loaded(map[], es, |version| + 1)))
  {
    var raw := DictionaryText(version, es);
    var n := |version|;
    Split2(raw, 0, version + "\n", Lines(es));
    Split2(raw, 0, version, "\n");
    assert raw[..n] == version;
    EDict2Properties.FirstLineIgnored(raw, n);
    assert raw[n] == raw[n..n + 1][0];
    OneStep(raw, n, Start);
    var s1 := Loader(JapaneseWord, [], None, map[]);
    StepsThen(raw, 0, n, n + 1, Start, Start);
    LinesRun(raw, n + 1, |raw|, es, s1);
    StepsThen(raw, 0, n + 1, |raw|, Start, s1);
  }

  /** Key k is one of the entry's surface forms or readings. */
  predicate InEntry(k: string, e: Entry) {
    k in e.words || k in e.readings
  }

  /** What InsertAll keeps and what it adds. */
  lemma {:induction false} InsertAllFacts(index: map<string, nat>, ws: seq<string>, v: nat)
    ensures forall k :: k in InsertAll(index, ws, v) <==> k in index || k in ws
    ensures forall k :: k in ws ==> InsertAll(index, ws, v)[k] == v
    ensures forall k :: k in index && k !in ws ==> InsertAll(index, ws, v)[k] == index[k]
    decreases |ws|
  {
    if ws != [] {
      InsertAllFacts(index[ws[0] := v], ws[1..], v);
      forall k ensures k in ws <==> k == ws[0] || k in ws[1..] {
        assert ws == [ws[0]] + ws[1..];
      }
    }
  }

  /** The offset of entry i's line when the lines of es start at p. */
  function LineOffset(es: seq<Entry>, p: nat, i: nat): nat
    requires i <= |es|
  {
    p + |Lines(es[..i])|
  }

  /** The lines before entry i, entry i's line, and the lines after it. */
  lemma {:induction false} LinesSplit(es: seq<Entry>, i: nat)
    requires i < |es|
    ensures Lines(es) == Lines(es[..i]) + (EntryLine(es[i]) + "\n") + Lines(es[i + 1..])
    decreases i
  {
    if i == 0 {
      assert es[..0] == [];
      LinesCons(es);
    } else {
      var l := EntryLine(es[0]) + "\n";
      LinesSplit(es[1..], i - 1);
      assert es[1..][i - 1] == es[i] && es[1..][i..] == es[i + 1..];
      assert es[..i][0] == es[0] && es[..i][1..] == es[1..][..i - 1];
      LinesCons(es);
      LinesCons(es[..i]);
      RegroupAfter(l, Lines(es[1..][..i - 1]), EntryLine(es[i]) + "\n", Lines(es[i + 1..]));
    }
  }

  /** Entry i's line sits at its offset, newline included. */
  lemma LinesAt(es: seq<Entry>, i: nat)
    requires i < |es|
    ensures var o := |Lines(es[..i])|;
      o + |EntryLine(es[i])| < |Lines(es)| && Lines(es)[o..o + |EntryLine(es[i])| + 1] == EntryLine(es[i]) + "\n"
  {
    LinesSplit(es, i);
    var x := Lines(es[..i]);
    var y := EntryLine(es[i]) + "\n";
    assert (x + y + Lines(es[i + 1..]))[|x|..|x| + |y|] == y;
  }

  /** The offset of entry i, one entry later. */
  lemma LineOffsetNext(es: seq<Entry>, p: nat, i: nat)
    requires 0 < i <= |es|
    ensures LineOffset(es, p, i) == LineOffset(es[1..], p + |EntryLine(es[0])| + 1, i - 1)
  {
    assert es[..i][1..] == es[1..][..i - 1];
    assert Lines(es[..i]) == EntryLine(es[0]) + "\n" + Lines(es[1..][..i - 1]);
  }

  /**
   * Every key of the loaded dictionary comes from the starting map or from
   * an entry, and then maps to that entry's line; every surface form and
   * reading of every entry is a key.
   */
  lemma {:induction false} LoadedKeys(index: map<string, nat>, es: seq<Entry>, p: nat)
    ensures forall k :: k in Loaded(index, es, p) ==>
      (k in index && Loaded(index, es, p)[k] == index[k])
      || exists i :: 0 <= i < |es| && InEntry(k, es[i]) && Loaded(index, es, p)[k] == LineOffset(es, p, i)
    ensures forall i, k :: 0 <= i < |es| && InEntry(k, es[i]) ==> k in Loaded(index, es, p)
    ensures forall k :: k in index ==> k in Loaded(index, es, p)
    decreases |es|
  {
    if es != [] {
      var e := es[0];
      var next := InsertAll(InsertAll(index, e.words, p), e.readings, p);
      var q := p + |EntryLine(e)| + 1;
      InsertAllFacts(index, e.words, p);
      InsertAllFacts(InsertAll(index, e.words, p), e.readings, p);
      LoadedKeys(next, es[1..], q);
      var r := Loaded(index, es, p);
      assert r == Loaded(next, es[1..], q);
      assert LineOffset(es, p, 0) == p by {
        assert es[..0] == [];
      }
      forall k | k in r
        ensures (k in index && r[k] == index[k])
          || exists i :: 0 <= i < |es| && InEntry(k, es[i]) && r[k] == LineOffset(es, p, i)
      {
        if k in next && r[k] == next[k] {
          if InEntry(k, e) {
            assert 0 <= 0 < |es| && InEntry(k, es[0]) && r[k] == LineOffset(es, p, 0);
          }
        } else {
          LaterEntryKey(es, p, q, k, r);
        }
      }
      forall i, k | 0 <= i < |es| && InEntry(k, es[i])
        ensures k in r
      {
        if i > 0 {
          assert InEntry(k, es[1..][i - 1]);
        }
      }
    }
  }

  /** A key that the later entries map gives the offset of a later entry's line. */
  lemma LaterEntryKey(es: seq<Entry>, p: nat, q: nat, k: string, v: map<string, nat>)
    requires es != [] && q == p + |EntryLine(es[0])| + 1 && k in v
    requires exists i :: 0 <= i < |es[1..]| && InEntry(k, es[1..][i]) && v[k] == LineOffset(es[1..], q, i)
    ensures exists i :: 0 <= i < |es| && InEntry(k, es[i]) && v[k] == LineOffset(es, p, i)
  {
    var i :| 0 <= i < |es[1..]| && InEntry(k, es[1..][i]) && v[k] == LineOffset(es[1..], q, i);
    LineOffsetNext(es, p, i + 1);
    assert 0 <= i + 1 < |es| && InEntry(k, es[i + 1]) && v[k] == LineOffset(es, p, i + 1);
  }

  /** The first limit characters of t, or all of t. */
  function Truncated(t: string, limit: nat): string {
    if limit < |t| then t[..limit] else t
  }

  /** Lookup copies a line without inner newline, up to its newline and the limit. */
  lemma {:induction false} EntryTextOfLine(raw: seq<char>, start: nat, l: string, limit: nat)
    requires '\n' !in l && start + |l| < |raw| && raw[start..start + |l| + 1] == l + "\n"
    ensures EntryText(raw, start, limit) == Truncated(l + "\n", limit)
    decreases limit
  {
    if limit > 0 {
      assert raw[start] == raw[start..start + |l| + 1][0];
      if l != [] {
        assert raw[start + 1..start + |l| + 1] == l[1..] + "\n" by {
          assert raw[start + 1..start + |l| + 1] == raw[start..start + |l| + 1][1..];
          assert (l + "\n")[1..] == l[1..] + "\n";
        }
        EntryTextOfLine(raw, start + 1, l[1..], limit - 1);
        assert (l + "\n") == [l[0]] + (l[1..] + "\n");
      }
    }
  }

  lemma {:induction false} JoinHasNoNewline(ws: seq<string>)
    requires AllWords(ws)
    ensures '\n' !in Join(ws)
    decreases |ws|
  {
    if |ws| > 0 {
      assert IsWord(ws[0]);
      assert '\n' !in ws[0] by {
        forall j | 0 <= j < |ws[0]| ensures ws[0][j] != '\n' {
          assert IsWordChar(ws[0][j]);
        }
      }
      if |ws| > 1 {
        JoinHasNoNewline(ws[1..]);
      }
    }
  }

  lemma LineHasNoNewline(en: Entry)
    requires WellFormed(en)
    ensures '\n' !in EntryLine(en)
  {
    JoinHasNoNewline(en.words);
    JoinHasNoNewline(en.readings);
  }

  /** Copying from the offset of entry i gives entry i's line, cut to the limit. */
  lemma CopyAtEntry(version: string, es: seq<Entry>, i: nat, limit: nat)
    requires AllWellFormed(es) && i < |es|
    ensures EntryText(DictionaryText(version, es), LineOffset(es, |version| + 1, i), limit)
      == Truncated(EntryLine(es[i]) + "\n", limit)
  {
    var raw := DictionaryText(version, es);
    var o := LineOffset(es, |version| + 1, i);
    var l := EntryLine(es[i]);
    assert WellFormed(es[i]);
    LineHasNoNewline(es[i]);
    LineInText(version, es, i, o);
    EntryTextOfLine(raw, o, l, limit);
  }

  /** Entry i's line, with its newline, sits in the file text at the entry's offset. */
  lemma LineInText(version: string, es: seq<Entry>, i: nat, o: nat)
    requires i < |es| && o == LineOffset(es, |version| + 1, i)
    ensures o + |EntryLine(es[i])| < |DictionaryText(version, es)|
    ensures DictionaryText(version, es)[o..o + |EntryLine(es[i])| + 1] == EntryLine(es[i]) + "\n"
  {
    var head := version + "\n";
    var l := EntryLine(es[i]);
    var b := |Lines(es[..i])|;
    LinesAt(es, i);
    SliceOfSuffix(head, Lines(es), b, b + |l| + 1);
  }

  /**
   * Lookup after loading a well-formed file: a key is found exactly when it
   * is a surface form or reading of some entry, and then the copy is that
   * entry's line with its newline, cut to the output buffer's size.
   */
  lemma LookupWellFormed(version: string, es: seq<Entry>, w: string, limit: nat)
    requires AllWellFormed(es)
    ensures var index := Loaded(map[], es, |version| + 1);
      && (w in index <==> exists i :: 0 <= i < |es| && InEntry(w, es[i]))
      && (w in index ==>
            exists i :: 0 <= i < |es| && InEntry(w, es[i])
              && EntryText(DictionaryText(version, es), index[w], limit) == Truncated(EntryLine(es[i]) + "\n", limit))
  {
    var index := Loaded(map[], es, |version| + 1);
    LoadedKeys(map[], es, |version| + 1);
    if w in index {
      var i :| 0 <= i < |es| && InEntry(w, es[i]) && index[w] == LineOffset(es, |version| + 1, i);
      CopyAtEntry(version, es, i, limit);
    }
  }

  /** A two-entry dictionary: the dog and cat entries. */
  const Example: seq<Entry> :=
    [Entry(["犬", "いぬ"], ["けん"], "dog", "1234567X/"), Entry(["猫"], ["ねこ"], "cat", "7654321X/")]

  lemma JoinTwo(a: string, b: string)
    ensures Join([a, b]) == a + ";" + b
  {
    assert [a, b][1..] == [b];
  }

  lemma ReadingsOne(r: string)
    ensures ReadingsAndSlash([r]) == " [" + r + "] /"
  {
  }

  /** The example's first line. */
  lemma ExampleLine0()
    ensures EntryLine(Example[0]) == "犬;いぬ [けん] /dog/EntL1234567X/"
  {
    JoinTwo("犬", "いぬ");
    ReadingsOne("けん");
    assert EntryLine(Example[0]) == "犬" + ";" + "いぬ" + (" [" + "けん" + "] /") + "dog" + "/EntL" + "1234567X/";
  }

  /** The example's second line. */
  lemma ExampleLine1()
    ensures EntryLine(Example[1]) == "猫 [ねこ] /cat/EntL7654321X/"
  {
    ReadingsOne("ねこ");
    assert EntryLine(Example[1]) == "猫" + (" [" + "ねこ" + "] /") + "cat" + "/EntL" + "7654321X/";
  }

  lemma ExampleWellFormed()
    ensures AllWellFormed(Example)
  {
    assert IsWord("犬") && IsWord("いぬ") && IsWord("けん") && IsWord("猫") && IsWord("ねこ");
    assert WellFormed(Example[0]) && WellFormed(Example[1]);
  }

  /** The example's file text. */
  lemma ExampleText()
    ensures DictionaryText("VersionInfo", Example)
      == "VersionInfo\n" + ("犬;いぬ [けん] /dog/EntL1234567X/\n" + "猫 [ねこ] /cat/EntL7654321X/\n")
  {
    ExampleLine0();
    ExampleLine1();
    LinesTwo(Example[0], Example[1]);
    assert Example == [Example[0], Example[1]];
  }

  /** The text of two entries. */
  lemma LinesTwo(e1: Entry, e2: Entry)
    ensures Lines([e1, e2]) == EntryLine(e1) + "\n" + (EntryLine(e2) + "\n")
  {
    assert [e1, e2][1..] == [e2] && [e2][1..] == [];
    LinesCons([e1, e2]);
    LinesCons([e2]);
    assert Lines([e2]) == EntryLine(e2) + "\n" + "";
    assert EntryLine(e2) + "\n" + "" == EntryLine(e2) + "\n";
  }

  /** The example's dictionary: each word maps to the start of its own line. */
  lemma ExampleIndex()
    ensures Loaded(map[], Example, 12) == map["犬" := 12, "いぬ" := 12, "けん" := 12, "猫" := 41, "ねこ" := 41]
  {
    var e1 := Example[0];
    var e2 := Example[1];
    var m1 := map["犬" := 12, "いぬ" := 12];
    assert InsertAll(map[], e1.words, 12) == InsertAll(map["犬" := 12], ["いぬ"], 12) == m1;
    var m2 := m1["けん" := 12];
    assert InsertAll(m1, e1.readings, 12) == m2;
    assert |EntryLine(e1)| == 28;
    assert Example[1..] == [e2] && [e2][1..] == [];
    assert Loaded(map[], Example, 12) == Loaded(m2, [e2], 41);
    var m3 := m2["猫" := 41]["ねこ" := 41];
    assert InsertAll(InsertAll(m2, e2.words, 41), e2.readings, 41) == m3;
    assert Loaded(m2, [e2], 41) == Loaded(m3, [], 41 + |EntryLine(e2)| + 1) == m3;
  }

  /**
   * Loading the example file (its text as ExampleText states) succeeds; the three keys of the first entry
   * map to offset 12 and the two keys of the second to offset 41.
   */
  lemma ExampleLoads()
    ensures Load(DictionaryText("VersionInfo", Example))
      == Ok(Loader(JapaneseWord, [], None, map["犬" := 12, "いぬ" := 12, "けん" := 12, "猫" := 41, "ねこ" := 41]))
  {
    ExampleWellFormed();
    LoadWellFormed("VersionInfo", Example);
    ExampleIndex();
  }

  /**
   * Looking up a key of the first example entry (offset 12) copies that
   * entry's whole line, newline included, into a 1024-character buffer.
   */
  lemma ExampleLookupFirst()
    ensures EntryText(DictionaryText("VersionInfo", Example), 12, 1024) == "犬;いぬ [けん] /dog/EntL1234567X/" + "\n"
  {
    ExampleWellFormed();
    CopyAtEntry("VersionInfo", Example, 0, 1024);
    assert Example[..0] == [];
    ExampleLine0();
  }

  /** The same for the second example entry, at offset 41. */
  lemma ExampleLookupSecond()
    ensures EntryText(DictionaryText("VersionInfo", Example), 41, 1024) == "猫 [ねこ] /cat/EntL7654321X/" + "\n"
  {
    ExampleWellFormed();
    CopyAtEntry("VersionInfo", Example, 1, 1024);
    ExampleLine0();
    ExampleLine1();
    assert Example[..1] == [Example[0]] && Example[..1][1..] == [];
    assert LineOffset(Example, 12, 1) == 41;
  }
}
