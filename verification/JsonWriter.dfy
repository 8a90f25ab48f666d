/** The writer: it appends a value's JSON to what it has written, one piece at a time. */
module JsonWriter {
  import opened Collections
  import opened Integers
  import opened Wrappers
  import opened Json

  lemma {:induction false} EscapeAppend(s: string, t: string)
    ensures Escape(s + t) == Escape(s) + Escape(t)
  {
    if s == [] {
      assert s + t == t;
    } else {
      assert (s + t)[1..] == s[1..] + t;
      EscapeAppend(s[1..], t);
    }
  }

  /** The comma that `Compound::separate` writes before every item but the first. */
  function Separator(written: nat): bytes {
    if written == 0 then [] else [COMMA]
  }

  lemma {:induction false} PrintItemsSnoc(items: seq<Value>, item: Value)
    ensures PrintItems(items + [item]) == PrintItems(items) + Separator(|items|) + Print(item)
  {
    if items != [] {
      assert (items + [item])[1..] == items[1..] + [item];
      PrintItemsSnoc(items[1..], item);
    }
  }

  lemma EscapeSnoc(s: string, i: nat)
    requires i < |s|
    ensures Escape(s[..i + 1]) == Escape(s[..i]) + EscapeChar(s[i])
  {
    assert s[..i + 1] == s[..i] + [s[i]];
    EscapeAppend(s[..i], [s[i]]);
    assert [s[i]][1..] == [] && EscapeChar(s[i]) + [] == EscapeChar(s[i]);
  }

  lemma {:induction false} PrintFieldsSnoc(fields: seq<(string, Value)>, field: (string, Value))
    ensures PrintFields(fields + [field]) == PrintFields(fields) + Separator(|fields|) + PrintField(field)
  {
    if fields != [] {
      assert (fields + [field])[1..] == fields[1..] + [field];
      PrintFieldsSnoc(fields[1..], field);
    }
  }

  class Writer {
    var out: bytes

    constructor (out: bytes)
      ensures this.out == out
    {
      this.out := out;
    }

    method WriteStr(s: string)
      modifies this
      ensures out == old(out) + PrintString(s)
    {
      hide EscapeChar;
      out := out + [QUOTE];
      for i := 0 to |s|
        invariant out == old(out) + [QUOTE] + Escape(s[..i])
      {
        EscapeSnoc(s, i);
        Associative(old(out) + [QUOTE], Escape(s[..i]), EscapeChar(s[i]));
        out := out + EscapeChar(s[i]);
      }
      out := out + [QUOTE];
      assert s[..|s|] == s;
    }

    method WriteValue(v: Value)
      modifies this
      ensures out == old(out) + Print(v)
      decreases v
    {
      match v
      case Null => out := out + NULL;
      case Bool(b) => out := out + if b then TRUE else FALSE;
      case Number(n) => out := out + Digits(n);
      case String(s) => WriteStr(s);
      case Array(items) => WriteItems(items);
      case Object(fields) => WriteFields(fields);
    }

    method WriteItems(items: seq<Value>)
      modifies this
      ensures out == old(out) + ([OPEN_BRACKET] + PrintItems(items) + [CLOSE_BRACKET])
      decreases items
    {
      out := out + [OPEN_BRACKET];
      var first := true;
      ghost var before := out;
      for i := 0 to |items|
        invariant first == (i == 0)
        invariant out == before + PrintItems(items[..i])
      {
        if !first {
          out := out + [COMMA];
        }
        first := false;
        WriteValue(items[i]);
        PrintItemsSnoc(items[..i], items[i]);
        JoinRest(before, PrintItems(items[..i]), Separator(i), Print(items[i]));
        assert items[..i + 1] == items[..i] + [items[i]];
      }
      assert items[..|items|] == items;
      JoinRest(old(out), [OPEN_BRACKET], PrintItems(items), [CLOSE_BRACKET]);
      out := out + [CLOSE_BRACKET];
    }

    method WriteField(field: (string, Value))
      modifies this
      ensures out == old(out) + PrintField(field)
      decreases field
    {
      WriteStr(field.0);
      out := out + [COLON];
      WriteValue(field.1);
      JoinRest(old(out), PrintString(field.0), [COLON], Print(field.1));
    }

    method WriteFields(fields: seq<(string, Value)>)
      modifies this
      ensures out == old(out) + ([OPEN_BRACE] + PrintFields(fields) + [CLOSE_BRACE])
      decreases fields
    {
      out := out + [OPEN_BRACE];
      var first := true;
      ghost var before := out;
      for i := 0 to |fields|
        invariant first == (i == 0)
        invariant out == before + PrintFields(fields[..i])
      {
        if !first {
          out := out + [COMMA];
        }
        first := false;
        WriteField(fields[i]);
        PrintFieldsSnoc(fields[..i], fields[i]);
        JoinRest(before, PrintFields(fields[..i]), Separator(i), PrintField(fields[i]));
        assert fields[..i + 1] == fields[..i] + [fields[i]];
      }
      assert fields[..|fields|] == fields;
      JoinRest(old(out), [OPEN_BRACE], PrintFields(fields), [CLOSE_BRACE]);
      out := out + [CLOSE_BRACE];
    }
  }

  /** Fields are appended behind the opening brace; after the first error the bytes stay as they are. */
  class ObjectBuilder {
    var writer: Writer
    var error: Option<string>
    ghost var fields: seq<(string, Value)>

    ghost predicate Valid()
      reads this, writer
    {
      && |writer.out| >= 1
      && (error.None? ==> writer.out == [OPEN_BRACE] + PrintFields(fields))
    }

    constructor ()
      ensures Valid() && fresh(writer)
      ensures error == None && fields == []
    {
      writer := new Writer([OPEN_BRACE]);
      error := None;
      fields := [];
    }

    method Field(key: string, value: Result<Value>)
      requires Valid()
      modifies this, writer
      ensures Valid() && writer == old(writer)
      ensures error == if old(error).Some? then old(error) else if value.Failure? then Some(value.error) else None
      ensures fields == if error.None? then old(fields) + [(key, value.value)] else old(fields)
    {
      if error.Some? {
        return;
      }
      ghost var before := writer.out;
      assert fields == [] ==> PrintFields(fields) == [];
      assert fields != [] ==> |PrintField(fields[0])| > 0;
      if |writer.out| > 1 {
        writer.out := writer.out + [COMMA];
      }
      match value
      case Failure(e) =>
        writer.WriteStr(key);
        writer.out := writer.out + [COLON];
        error := Some(e);
      case Success(v) =>
        writer.WriteField((key, v));
        PrintFieldsSnoc(fields, (key, v));
        JoinRest([OPEN_BRACE], PrintFields(fields), Separator(|fields|), PrintField((key, v)));
        fields := fields + [(key, v)];
    }

    /** What is written field by field is the text of the whole object. */
    method IntoVec() returns (r: Result<bytes>)
      requires Valid()
      ensures r == if error.Some? then Failure(error.value) else Success(Print(Object(fields)))
    {
      if error.Some? {
        return Failure(error.value);
      }
      r := Success(writer.out + [CLOSE_BRACE]);
    }
  }
}
