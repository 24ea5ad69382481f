/**
 * The process-wide dictionary of src/TextProcessor.cpp (`dictionary` and
 * `rawDictionary`) as one object, with the loader loop, the insertion
 * helper and the lookup that copies an entry into a caller's buffer.
 */
module EDict2Dictionary {
  import opened Wrappers
  import opened EDict2

  class Dictionary {
    /** The hash map: key to the offset of the first character of its line. */
    var index: map<string, nat>
    /** The raw dictionary buffer, read whole from the file. */
    var raw: seq<char>

    /** The static state before loadDictionary runs. */
    constructor ()
      ensures index == map[] && raw == []
    {
      index := map[];
      raw := [];
    }

    /**
     * finishAddWordToDictionary: the key is the copied word read as a C
     * string; an existing key is overwritten, and the key is present
     * afterwards.
     */
    method FinishAddWordToDictionary(word: array<char>, wordLength: nat, entry: nat)
      requires wordLength <= word.Length
      modifies this`index
      ensures index == old(index)[CString(word[..wordLength]) := entry]
      ensures CString(word[..wordLength]) in index
    {
      var key := CString(word[..wordLength]);
      index := index[key := entry];
    }

    /**
     * loadDictionary over the file contents: one pass of the read-state
     * machine, gathering each pending word in a 1024-character buffer.
     * The result is exactly the Load function's: its index on success,
     * its error otherwise.
     */
    method LoadDictionary(contents: seq<char>) returns (err: Option<LoadError>)
      requires index == map[]
      modifies this
      ensures raw == contents
      ensures Load(contents).Ok? ==> err == None && index == Load(contents).value.index
      ensures Load(contents).Err? ==> err == Some(Load(contents).error)
    {
      raw := contents;
      var readState := VersionNumber;
      var buffer := new char[WordBufferSize];
      var bufferWriteHead: nat := 0;
      var beginningOfLine: Option<nat> := None;
      var i := 0;
      while i < |contents|
        invariant i <= |contents| && raw == contents
        invariant buffer.Length == WordBufferSize && bufferWriteHead <= WordBufferSize
        invariant Steps(contents, 0, i, Start) == Ok(Loader(readState, buffer[..bufferWriteHead], beginningOfLine, index))
      {
        ghost var before := Loader(readState, buffer[..bufferWriteHead], beginningOfLine, index);
        var c := contents[i];
        if c == '\n' {
          if readState != VersionNumber && readState != EntryId {
            LoadStopsAt(contents, i, before, MalformedLine(i));
            return Some(MalformedLine(i));
          }
          beginningOfLine := None;
          readState := JapaneseWord;
        } else {
          match readState
          case VersionNumber =>
          case JapaneseWord =>
            if beginningOfLine.None? {
              beginningOfLine := Some(i);
            }
            if c == '/' || c == '[' || c == ';' {
              if bufferWriteHead != 0 {
                FinishAddWordToDictionary(buffer, bufferWriteHead, beginningOfLine.value);
                bufferWriteHead := 0;
              }
              if c == '/' {
                readState := EnglishDefinition;
              } else if c == '[' {
                readState := Reading;
              }
            } else if c != ' ' {
              if bufferWriteHead == WordBufferSize {
                LoadStopsAt(contents, i, before, WordTooLong(i));
                return Some(WordTooLong(i));
              }
              buffer[bufferWriteHead] := c;
              bufferWriteHead := bufferWriteHead + 1;
              assert buffer[..bufferWriteHead] == before.pending + [c];
            }
          case Reading =>
            if c == ']' || c == ';' {
              if bufferWriteHead != 0 {
                FinishAddWordToDictionary(buffer, bufferWriteHead, beginningOfLine.value);
                bufferWriteHead := 0;
              }
              if c == ']' {
                readState := JapaneseWord;
              }
            } else if c != ' ' {
              if bufferWriteHead == WordBufferSize {
                LoadStopsAt(contents, i, before, WordTooLong(i));
                return Some(WordTooLong(i));
              }
              buffer[bufferWriteHead] := c;
              bufferWriteHead := bufferWriteHead + 1;
              assert buffer[..bufferWriteHead] == before.pending + [c];
            }
          case EnglishDefinition =>
            if IsEntryIdMarker(contents, i) {
              readState := EntryId;
            }
          case EntryId =>
        }
        ghost var after := Loader(readState, buffer[..bufferWriteHead], beginningOfLine, index);
        assert Step(contents, i, before) == Ok(after);
        StepsNext(contents, i, before, after);
        i := i + 1;
      }
      err := None;
    }

    /**
     * getDictionaryResults: on a miss, report false and leave the output
     * buffer alone; on a hit, copy the entry into it, stopping after the
     * first newline or after outBufferSize characters, and report true.
     * The copy also stops at the end of the raw buffer, the range check the
     * source leaves as a TODO.
     */
    method GetDictionaryResults(query: string, outBuffer: array<char>, outBufferSize: nat) returns (found: bool)
      requires outBufferSize <= outBuffer.Length
      modifies outBuffer
      ensures found <==> CString(query) in index
      ensures !found ==> unchanged(outBuffer)
      ensures found ==>
        var text := EntryText(raw, index[CString(query)], outBufferSize);
        outBuffer[..|text|] == text
        && forall k :: |text| <= k < outBuffer.Length ==> outBuffer[k] == old(outBuffer[k])
    {
      var key := CString(query);
      if key !in index {
        return false;
      }
      found := true;
      var entry := index[key];
      var rawDictionary := raw;
      ghost var text := EntryText(rawDictionary, entry, outBufferSize);
      var i := 0;
      assert text[i..] == text;
      while i < outBufferSize && entry + i < |rawDictionary|
        invariant i <= |text| && outBuffer[..i] == text[..i]
        invariant text[i..] == EntryText(rawDictionary, entry + i, outBufferSize - i)
        invariant forall k :: i <= k < outBuffer.Length ==> outBuffer[k] == old(outBuffer[k])
      {
        outBuffer[i] := rawDictionary[entry + i];
        if rawDictionary[entry + i] == '\n' {
          assert outBuffer[..i + 1] == text;
          return;
        }
        assert text[i..] == [rawDictionary[entry + i]] + EntryText(rawDictionary, entry + i + 1, outBufferSize - i - 1);
        assert text[i + 1..] == text[i..][1..];
        i := i + 1;
      }
    }
  }
}
