/** One function of the runtime library the compiled programs link against:
    whether it is inlined, its signature decoded from a descriptor such as
    "FFS" (two numbers in, a text out), the library functions it needs in
    turn, and its code. */
module LibraryEntries {
  import opened Common
  import opened ExpressionTypes

  datatype LibraryEntry = LibraryEntry(
    inline: bool,
    returnType: ExpressionType,
    paramTypes: seq<ExpressionType>,
    references: seq<string>,
    programCode: string)

  const LIBRARY_ERROR := "Can not read runtime library"

  /** The descriptor letter of each type. */
  function TypeLetter(t: ExpressionType): char
  {
    match t
    case Number => 'F'
    case Text => 'S'
    case NumberArray => 'A'
    case TextArray => 'X'
    case Void => 'V'
  }

  /** The type a descriptor letter stands for; any other letter fails. */
  function DecodeType(c: char): (r: Result<ExpressionType>)
    ensures r.Err? ==> r.msg == LIBRARY_ERROR
  {
    match c
    case 'F' => Ok(Number)
    case 'S' => Ok(Text)
    case 'A' => Ok(NumberArray)
    case 'X' => Ok(TextArray)
    case 'V' => Ok(Void)
    case _ => Err(LIBRARY_ERROR)
  }

  /** Every type's letter decodes back to it. */
  lemma DecodeTypeLetter(t: ExpressionType)
    ensures DecodeType(TypeLetter(t)) == Ok(t)
  {
  }

  /** A letter that decodes is the letter of its type: F, S, A, X and V are
      the only letters accepted. */
  lemma DecodedLetter(c: char)
    requires DecodeType(c).Ok?
    ensures TypeLetter(DecodeType(c).value) == c
    ensures c == 'F' || c == 'S' || c == 'A' || c == 'X' || c == 'V'
  {
  }

  predicate AllDecodable(s: string)
  {
    forall i :: 0 <= i < |s| ==> DecodeType(s[i]).Ok?
  }

  /** The code of an inlined entry: the text after the first '{' up to, but
      not including, the character before the first '}', trimmed. A brace
      pair too close together makes the substring fail. */
  function InlineBody(code: string): (r: Result<string>)
  {
    var startbrace := IndexOf(code, '{');
    var endbrace := IndexOf(code, '}');
    if endbrace - startbrace - 2 < 0 then Err("Length cannot be less than zero.")
    else Ok(Trim(code[startbrace + 1..endbrace - 1]))
  }

  /** The body of "head{ text\n}tail" is the trimmed text: the character
      just before the closing brace, normally the line break, is dropped. */
  lemma InlineBlock(head: string, body: string, tail: string)
    requires '{' !in head && '}' !in head && '}' !in body && body != []
    ensures InlineBody(head + "{" + body + "}" + tail) == Ok(Trim(body[..|body| - 1]))
  {
    var code := head + "{" + body + "}" + tail;
    var e := |head| + 1 + |body|;
    assert code[..|head|] == head;
    IndexOfAt(code, '{', |head|);
    assert code[..e] == head + "{" + body;
    assert '}' !in code[..e];
    IndexOfAt(code, '}', e);
    assert code[|head| + 1..e - 1] == body[..|body| - 1];
  }

  /** The entry read from a first line's descriptor and references and from
      the entry's code, as a value; NewLibraryEntry builds it step by step. */
  function EntryOf(inline: bool, descriptorAndReferences: seq<string>, code: string): Result<LibraryEntry>
  {
    if descriptorAndReferences == [] || descriptorAndReferences[0] == [] then Err(ARRAY_INDEX_OUTSIDE)
    else
      var descriptor := descriptorAndReferences[0];
      var n := |descriptor| - 1;
      if !AllDecodable(descriptor) then Err(LIBRARY_ERROR)
      else if inline && InlineBody(code).Err? then Err(InlineBody(code).msg)
      else
        Ok(LibraryEntry(inline, DecodeType(descriptor[n]).value,
                        seq(n, i requires 0 <= i < n => DecodeType(descriptor[i]).value),
                        descriptorAndReferences[1..],
                        if inline then InlineBody(code).value else code))
  }

  /** Reads an entry from its first line's descriptor and references and its
      code: the return type from the descriptor's last letter, a parameter
      type from every earlier letter, and the references as given. */
  method NewLibraryEntry(inline: bool, descriptorAndReferences: seq<string>, code: string) returns (r: Result<LibraryEntry>)
    ensures r == EntryOf(inline, descriptorAndReferences, code)
    ensures r.Ok? <==>
              && descriptorAndReferences != [] && descriptorAndReferences[0] != []
              && AllDecodable(descriptorAndReferences[0])
              && (inline ==> InlineBody(code).Ok?)
    ensures r.Ok? ==>
              var descriptor := descriptorAndReferences[0];
              var n := |descriptor| - 1;
              && r.value.inline == inline
              && r.value.returnType == DecodeType(descriptor[n]).value
              && |r.value.paramTypes| == n
              && (forall i :: 0 <= i < n ==> r.value.paramTypes[i] == DecodeType(descriptor[i]).value)
              && r.value.references == descriptorAndReferences[1..]
              && r.value.programCode == if inline then InlineBody(code).value else code
  {
    if descriptorAndReferences == [] {
      return Err(ARRAY_INDEX_OUTSIDE);
    }
    var descriptor := descriptorAndReferences[0];
    if descriptor == [] {
      return Err(ARRAY_INDEX_OUTSIDE);
    }
    var n := |descriptor| - 1;
    var returnType := DecodeType(descriptor[n]);
    if returnType.Err? {
      return Err(returnType.msg);
    }
    var paramTypes := DecodeParameters(descriptor);
    if paramTypes.Err? {
      return Err(paramTypes.msg);
    }
    var references: seq<string> := [];
    var i := 0;
    while i < |descriptorAndReferences| - 1
      invariant 0 <= i <= |descriptorAndReferences| - 1
      invariant references == descriptorAndReferences[1..i + 1]
    {
      references := references + [descriptorAndReferences[1 + i]];
      i := i + 1;
    }
    var programCode := code;
    if inline {
      var body := InlineBody(code);
      if body.Err? {
        return Err(body.msg);
      }
      programCode := body.value;
    }
    assert paramTypes.value == seq(n, i requires 0 <= i < n => DecodeType(descriptor[i]).value);
    assert AllDecodable(descriptor) by {
      assert forall i :: 0 <= i < n ==> DecodeType(descriptor[i]).Ok?;
    }
    assert references == descriptorAndReferences[1..];
    assert programCode == if inline then InlineBody(code).value else code;
    assert returnType.value == DecodeType(descriptor[n]).value;
    r := Ok(LibraryEntry(inline, returnType.value, paramTypes.value, references, programCode));
  }

  /** The loop that decodes every letter of the descriptor but the last. */
  method DecodeParameters(descriptor: string) returns (r: Result<seq<ExpressionType>>)
    requires descriptor != []
    ensures r.Ok? <==> forall i :: 0 <= i < |descriptor| - 1 ==> DecodeType(descriptor[i]).Ok?
    ensures r.Err? ==> r.msg == LIBRARY_ERROR
    ensures r.Ok? ==> |r.value| == |descriptor| - 1
    ensures r.Ok? ==> forall i :: 0 <= i < |descriptor| - 1 ==> r.value[i] == DecodeType(descriptor[i]).value
  {
    var types: seq<ExpressionType> := [];
    var i := 0;
    while i < |descriptor| - 1
      invariant 0 <= i <= |descriptor| - 1 && |types| == i
      invariant forall k :: 0 <= k < i ==> DecodeType(descriptor[k]).Ok? && types[k] == DecodeType(descriptor[k]).value
    {
      var t := DecodeType(descriptor[i]);
      if t.Err? {
        return Err(t.msg);
      }
      types := types + [t.value];
      i := i + 1;
    }
    r := Ok(types);
  }
}
