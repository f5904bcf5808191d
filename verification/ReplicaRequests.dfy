/**
 What a server sends after the snapshot: selections of a database, pings, configuration requests and
 commands, each as an array of octet strings.
 */
module ReplicaRequests {
  import opened Bytes
  import opened Decimal
  import opened RdbValue
  import opened ReplicaStream

  // ----- Names -----

  /** The capital letter itself, or the small one. */
  predicate SameLetter(b: byte, letter: char) {
    b == letter as int || b == letter as int + 32
  }

  /**
   `name` is `word` in capital or small letters; the octets C5 BF (the long s) also stand for S and
   C4 B1 (the dotless i) for I.
   */
  predicate Spells(name: seq<byte>, word: string) {
    if word == "" then name == []
    else
      || (|name| >= 1 && SameLetter(name[0], word[0]) && Spells(name[1..], word[1..]))
      || (|name| >= 2 && word[0] == 'S' && name[0] == 0xC5 && name[1] == 0xBF && Spells(name[2..], word[1..]))
      || (|name| >= 2 && word[0] == 'I' && name[0] == 0xC4 && name[1] == 0xB1 && Spells(name[2..], word[1..]))
  }

  predicate Capitals(word: string) {
    forall i :: 0 <= i < |word| ==> 'A' <= word[i] <= 'Z'
  }

  lemma {:induction false} SpellsExactly(name: seq<byte>, word: string)
    requires Capitals(word)
    ensures Upper(name) == Octets(word) <==> Spells(name, word)
    decreases |word|
  {
    if word == "" {
      assert Octets(word) == [];
    } else if name != [] {
      var rest := word[1..];
      OctetsCons(word);
      SpellsExactly(name[1..], rest);
      SameLetterExactly(name[0], word[0]);
      if |name| >= 2 {
        SpellsExactly(name[2..], rest);
      }
      ConsEqual(Upper(name), Octets(word));
      UpperCons(name);
    }
  }

  lemma {:induction false} SpellsItself(word: string)
    requires Capitals(word)
    ensures Spells(Octets(word), word)
    decreases |word|
  {
    if word != "" {
      SpellsItself(word[1..]);
      OctetsCons(word);
      assert Octets(word)[1..] == Octets(word[1..]);
    }
  }

  lemma OctetsCons(word: string)
    requires word != ""
    ensures Octets(word) == [word[0] as int % 256] + Octets(word[1..])
  {
  }

  lemma SameLetterExactly(b: byte, letter: char)
    requires 'A' <= letter <= 'Z'
    ensures (if 97 <= b <= 122 then b - 32 else b) == letter as int <==> SameLetter(b, letter)
  {
  }

  lemma ConsEqual(a: seq<byte>, b: seq<byte>)
    requires a != [] && b != []
    ensures a == b <==> a[0] == b[0] && a[1..] == b[1..]
  {
    assert a == [a[0]] + a[1..] && b == [b[0]] + b[1..];
  }

  lemma UpperCons(name: seq<byte>)
    requires name != []
    ensures Upper(name) != []
    ensures if |name| >= 2 && name[0] == 0xC5 && name[1] == 0xBF then Upper(name)[0] == 83 && Upper(name)[1..] == Upper(name[2..])
      else if |name| >= 2 && name[0] == 0xC4 && name[1] == 0xB1 then Upper(name)[0] == 73 && Upper(name)[1..] == Upper(name[2..])
      else Upper(name)[0] == (if 97 <= name[0] <= 122 then name[0] - 32 else name[0]) && Upper(name)[1..] == Upper(name[1..])
  {
  }

  // ----- Requests -----

  /**
   One request, after the line ends in `pad`.  Names may be spelled in capital or small letters;
   `number` is a decimal text for the database `db`.
   */
  datatype Request =
    | SelectFrame(pad: seq<byte>, name: seq<byte>, number: seq<byte>, db: nat, more: seq<seq<byte>>)
    | BadSelectFrame(pad: seq<byte>, name: seq<byte>, more: seq<seq<byte>>)
    | PingFrame(pad: seq<byte>, name: seq<byte>, more: seq<seq<byte>>)
    | GetAckFrame(pad: seq<byte>, name: seq<byte>, what: seq<byte>, more: seq<seq<byte>>)
    | OtherConfFrame(pad: seq<byte>, name: seq<byte>, more: seq<seq<byte>>)
    | DataFrame(pad: seq<byte>, name: seq<byte>, more: seq<seq<byte>>)
    | EmptyFrame(pad: seq<byte>)

  predicate ValidRequest(r: Request) {
    && IsPad(r.pad) && Encodable(Items(r))
    && match r
       case SelectFrame(_, name, number, db, _) => Spells(name, "SELECT") && Shows(number, db) && db <= 0xFFFF_FFFF
       case BadSelectFrame(_, name, more) =>
         Spells(name, "SELECT") && (more == [] || forall n: nat :: n <= 0xFFFF_FFFF ==> !Shows(more[0], n))
       case PingFrame(_, name, _) => Spells(name, "PING")
       case GetAckFrame(_, name, what, _) => Spells(name, "REPLCONF") && Spells(what, "GETACK")
       case OtherConfFrame(_, name, more) => Spells(name, "REPLCONF") && (more == [] || !Spells(more[0], "GETACK"))
       case DataFrame(_, name, _) => !Spells(name, "SELECT") && !Spells(name, "PING") && !Spells(name, "REPLCONF")
       case EmptyFrame(_) => true
  }

  predicate IsPad(pad: seq<byte>) {
    forall i :: 0 <= i < |pad| ==> pad[i] == 13 || pad[i] == 10
  }

  /** Counts and lengths are representable in 64 bits. */
  predicate Encodable(items: seq<seq<byte>>) {
    |items| <= 0xFFFF_FFFF_FFFF_FFFF && forall i :: 0 <= i < |items| ==> |items[i]| <= 0xFFFF_FFFF_FFFF_FFFF
  }

  function Items(r: Request): seq<seq<byte>> {
    match r
    case SelectFrame(_, name, number, _, more) => [name, number] + more
    case BadSelectFrame(_, name, more) => [name] + more
    case PingFrame(_, name, more) => [name] + more
    case GetAckFrame(_, name, what, more) => [name, what] + more
    case OtherConfFrame(_, name, more) => [name] + more
    case DataFrame(_, name, more) => [name] + more
    case EmptyFrame(_) => []
  }

  /** Only a selection changes the database. */
  function RequestDb(db: nat, r: Request): nat {
    if r.SelectFrame? then r.db else db
  }

  /** Only a data request is passed on. */
  function RequestCommand(db: nat, r: Request): seq<RawCommand> {
    if r.DataFrame? then [RawCommand(db, r.name, r.more)] else []
  }

  lemma NamesAreLiteral()
    ensures SELECT == Octets("SELECT") && PING == Octets("PING")
    ensures REPLCONF == Octets("REPLCONF") && GETACK == Octets("GETACK")
  {
  }

  /** How the stream parser classifies an array. */
  lemma NameExactly(name: seq<byte>)
    ensures Upper(name) == SELECT <==> Spells(name, "SELECT")
    ensures Upper(name) == PING <==> Spells(name, "PING")
    ensures Upper(name) == REPLCONF <==> Spells(name, "REPLCONF")
    ensures Upper(name) == GETACK <==> Spells(name, "GETACK")
  {
    NamesAreLiteral();
    SpellsExactly(name, "SELECT");
    SpellsExactly(name, "PING");
    SpellsExactly(name, "REPLCONF");
    SpellsExactly(name, "GETACK");
  }

  lemma NamesDiffer()
    ensures SELECT != PING && SELECT != REPLCONF && PING != REPLCONF
  {
    assert SELECT[0] == 83 && PING[0] == 80 && REPLCONF[0] == 82;
  }

  /** The parser makes of a request what it means. */
  lemma RequestAgrees(db: nat, r: Request)
    requires ValidRequest(r)
    ensures DbAfter(db, Items(r)) == RequestDb(db, r)
    ensures CommandOutput(db, Items(r)) == Output(RequestCommand(db, r), r.PingFrame?, r.GetAckFrame?)
  {
    NamesDiffer();
    if !r.EmptyFrame? {
      NameExactly(r.name);
      assert Items(r)[0] == r.name;
      if |Items(r)| >= 2 {
        NameExactly(Items(r)[1]);
        ParseExactly(Items(r)[1], U32_MAX);
      }
      assert r.DataFrame? ==> Items(r)[1..] == r.more;
    }
  }

  /** Every array is one of these requests, so nothing is left unsaid. */
  lemma EveryArray(pad: seq<byte>, items: seq<seq<byte>>)
    requires IsPad(pad) && Encodable(items)
    ensures exists r :: ValidRequest(r) && r.pad == pad && Items(r) == items
  {
    if items == [] {
      assert ValidRequest(EmptyFrame(pad)) && Items(EmptyFrame(pad)) == items;
    } else {
      var r := Classify(pad, items);
      assert Items(r) == items && ValidRequest(r);
    }
  }

  ghost function Classify(pad: seq<byte>, items: seq<seq<byte>>): Request
    requires items != []
  {
    var name, more := items[0], items[1..];
    if Spells(name, "SELECT") then
      if n: nat :| more != [] && n <= 0xFFFF_FFFF && Shows(more[0], n)
      then SelectFrame(pad, name, more[0], n, more[1..])
      else BadSelectFrame(pad, name, more)
    else if Spells(name, "PING") then PingFrame(pad, name, more)
    else if Spells(name, "REPLCONF") then
      if more != [] && Spells(more[0], "GETACK") then GetAckFrame(pad, name, more[0], more[1..])
      else OtherConfFrame(pad, name, more)
    else DataFrame(pad, name, more)
  }

  /** For instance the selection that servers send. */
  lemma PlainSelect(n: nat)
    requires n <= 0xFFFF_FFFF
    ensures ValidRequest(SelectFrame([], Octets("SELECT"), NatText(n), n, []))
    ensures Items(SelectFrame([], Octets("SELECT"), NatText(n), n, [])) == [Octets("SELECT"), NatText(n)]
  {
    SpellsItself("SELECT");
    NatTextDecimal(n);
    NatTextShort(n);
    assert Shows(NatText(n), n);
  }
}
