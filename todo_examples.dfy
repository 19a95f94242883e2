/**
 * Worked instances of the todo-line grammar: an item "- [m] text" checked and
 * unchecked, for any item text without line terminators, and edited.
 */
module TodoExamples {
  import opened Wrappers
  import opened Lines
  import opened TodoLine

  /** " " : the mark of an open item. */
  const Space: CodeUnit := 0x0020
  /** "x" : the mark of a done item. */
  const LetterX: CodeUnit := 0x0078

  /** The line "- [mark] text". */
  function Item(mark: CodeUnit, text: Text): Text
  {
    BulletOpen + [mark, CloseBracket, Space] + text
  }

  /** "- [mark] text" splits into "- [", the mark and "] text". */
  lemma ItemParses(mark: CodeUnit, text: Text)
    requires !IsLineTerminator(mark) && NoLineTerminator(text)
    ensures ParseTodo(Item(mark, text)) == Some(Todo(BulletOpen, mark, [CloseBracket, Space] + text))
  {
    var t := Todo(BulletOpen, mark, [CloseBracket, Space] + text);
    assert PrefixShape(BulletOpen) by {
      assert BulletOpen[..0] == [];
    }
    assert SuffixSplit(t.suffix, 2) by {
      assert t.suffix[1..2] == [Space];
      assert t.suffix[2..] == text;
    }
    assert Item(mark, text) == t.prefix + [t.mark] + t.suffix;
    ParseTodoComplete(Item(mark, text), t);
  }

  /** Checking an item, "- [ ] text" to "- [x] text", is a toggle. */
  lemma CheckingIsToggle(text: Text)
    requires NoLineTerminator(text)
    ensures IsToggle(Item(Space, text), Item(LetterX, text))
  {
    var line := Item(Space, text);
    assert line[3 := LetterX] == Item(LetterX, text);
    ItemParses(Space, text);
    MarkFlipIsToggle(line, Todo(BulletOpen, Space, [CloseBracket, Space] + text), LetterX);
  }

  /** Unchecking it again, "- [x] text" to "- [ ] text", is a toggle too. */
  lemma UncheckingIsToggle(text: Text)
    requires NoLineTerminator(text)
    ensures IsToggle(Item(LetterX, text), Item(Space, text))
  {
    var line := Item(LetterX, text);
    assert line[3 := Space] == Item(Space, text);
    ItemParses(LetterX, text);
    MarkFlipIsToggle(line, Todo(BulletOpen, LetterX, [CloseBracket, Space] + text), Space);
  }

  /** The suffix the matcher finds in "- [mark] text", when it matches, is "] text". */
  lemma ItemSuffix(mark: CodeUnit, text: Text)
    ensures ParseTodo(Item(mark, text)).Some? ==>
      ParseTodo(Item(mark, text)).value.suffix == [CloseBracket, Space] + text
  {
    var line := Item(mark, text);
    WhiteSpaceRunUnique(line, 0);
    assert line[4..] == [CloseBracket, Space] + text;
  }

  /**
   * Checking an item while also editing its text, "- [ ] buy milk" to
   * "- [x] buy bread" say, is not a toggle: the suffixes differ, or a
   * line terminator in the text makes a line fail to match.
   */
  lemma CheckingAndEditingIsNotToggle(text: Text, text': Text)
    requires text != text'
    ensures !IsToggle(Item(Space, text), Item(LetterX, text'))
  {
    ItemSuffix(Space, text);
    ItemSuffix(LetterX, text');
    assert ([CloseBracket, Space] + text)[2..] == text;
    assert ([CloseBracket, Space] + text')[2..] == text';
  }
}
