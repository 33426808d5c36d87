/** Stored values, the keys they open with, and what a key rotation still has
    to do to a row. */
module ResealRows {
  import opened Wrappers

  /** Byte strings up to what the code can tell of them: plain bytes, an
      AES-GCM ciphertext, or the base64 of something. */
  datatype Bytes =
    | Literal(id: int)
    | Cipher(key: int, nonce: int, plain: Bytes)
    | Base64(inner: Bytes)

  datatype Stored = Blob(bytes: Bytes) | Text(bytes: Bytes)

  datatype Encoding = Raw | Base64Text | Base64Blob

  datatype Keyring = Keyring(current: int, previous: Option<int>)

  datatype Opened = Current(plain: Bytes) | Previous(plain: Bytes) | Neither

  datatype Need = Nothing | Seal(plain: Bytes) | Unreadable

  /** A row's sealed columns, and its `encrypted` flag where the table has one. */
  datatype Row = Row(values: seq<Option<Stored>>, flag: Option<int>)

  datatype Store = Store(columns: seq<Encoding>, flagged: bool)

  predicate Fits(store: Store, row: Row) {
    |row.values| == |store.columns| && (row.flag.Some? <==> store.flagged)
  }

  function Decrypt(key: int, ct: Bytes): Option<Bytes> {
    if ct.Cipher? && ct.key == key then Some(ct.plain) else None
  }

  function WhichOpens(keys: Keyring, ct: Bytes): Opened {
    match Decrypt(keys.current, ct)
    case Some(plain) => Current(plain)
    case None =>
      if keys.previous.None? then Neither
      else
        match Decrypt(keys.previous.value, ct)
        case Some(plain) => Previous(plain)
        case None => Neither
  }

  function Ciphertext(encoding: Encoding, stored: Stored): Option<Bytes> {
    match (encoding, stored)
    case (Raw, Blob(b)) => Some(b)
    case (Base64Text, Text(Base64(b))) => Some(b)
    case (Base64Blob, Blob(Base64(b))) => Some(b)
    case _ => None
  }

  function NeedOf(keys: Keyring, encoding: Encoding, stored: Stored, sealed: bool): Need {
    if !sealed then Seal(stored.bytes)
    else
      match Ciphertext(encoding, stored)
      case None => Unreadable
      case Some(ct) =>
        match WhichOpens(keys, ct)
        case Current(_) => Nothing
        case Previous(plain) => Seal(plain)
        case Neither => Unreadable
  }

  function Encode(keys: Keyring, encoding: Encoding, plain: Bytes, nonce: int): Stored {
    var sealed := Cipher(keys.current, nonce, plain);
    match encoding
    case Raw => Blob(sealed)
    case Base64Text => Text(Base64(sealed))
    case Base64Blob => Blob(Base64(sealed))
  }

  /** A row counts as sealed unless its flag is there and 0. */
  predicate IsSealed(row: Row) { row.flag != Some(0) }

  function ColumnNeed(keys: Keyring, store: Store, row: Row, i: nat): Need
    requires Fits(store, row) && i < |row.values|
  {
    match row.values[i]
    case None => Nothing
    case Some(stored) => NeedOf(keys, store.columns[i], stored, IsSealed(row))
  }

  /** What a reader of a column gets: its plaintext, or None when it is empty or
      no key opens it. Readers try the keys in turn, as `Keyring::decrypt` does,
      and know nothing of what a rotation needs. */
  function ReadColumn(keys: Keyring, store: Store, row: Row, i: nat): Option<Bytes>
    requires Fits(store, row) && i < |row.values|
  {
    match row.values[i]
    case None => None
    case Some(stored) =>
      if !IsSealed(row) then Some(stored.bytes)
      else
        match Ciphertext(store.columns[i], stored)
        case None => None
        case Some(ct) =>
          match Decrypt(keys.current, ct)
          case Some(plain) => Some(plain)
          case None => if keys.previous.None? then None else Decrypt(keys.previous.value, ct)
  }

  predicate NeedsSeal(keys: Keyring, store: Store, row: Row)
    requires Fits(store, row)
  {
    exists i :: 0 <= i < |row.values| && ColumnNeed(keys, store, row, i).Seal?
  }

  predicate HasUnreadable(keys: Keyring, store: Store, row: Row)
    requires Fits(store, row)
  {
    exists i :: 0 <= i < |row.values| && ColumnNeed(keys, store, row, i) == Unreadable
  }

  /** The keyring once the previous key is dropped. */
  function Dropped(keys: Keyring): Keyring { Keyring(keys.current, None) }

  /** The row can do without the previous key: nothing in it is plaintext, and
      every column reads the same with the current key alone. */
  predicate OutlivesPrevious(keys: Keyring, store: Store, row: Row)
    requires Fits(store, row)
  {
    forall i :: 0 <= i < |row.values| ==>
      && (row.flag == Some(0) ==> row.values[i].None?)
      && ReadColumn(Dropped(keys), store, row, i) == ReadColumn(keys, store, row, i)
  }

  /** A row is in need just when it cannot; and it has an unreadable value just
      when some value reads as nothing. */
  lemma NeedExactly(keys: Keyring, store: Store, row: Row)
    requires Fits(store, row)
    ensures NeedsSeal(keys, store, row) <==> !OutlivesPrevious(keys, store, row)
    ensures HasUnreadable(keys, store, row) <==>
            exists i :: 0 <= i < |row.values| && row.values[i].Some? && ReadColumn(keys, store, row, i).None?
  {
    forall i | 0 <= i < |row.values|
      ensures ColumnNeed(keys, store, row, i).Seal? <==>
              || (row.flag == Some(0) && row.values[i].Some?)
              || ReadColumn(Dropped(keys), store, row, i) != ReadColumn(keys, store, row, i)
      ensures ColumnNeed(keys, store, row, i) == Unreadable <==>
              row.values[i].Some? && ReadColumn(keys, store, row, i).None?
    {
      ColumnNeedExactly(keys, store, row, i);
    }
  }

  /** The key a stored value is sealed under, if it is of the column's form. */
  function SealedUnder(encoding: Encoding, stored: Stored): Option<int> {
    match (encoding, stored)
    case (Raw, Blob(Cipher(key, _, _))) => Some(key)
    case (Base64Text, Text(Base64(Cipher(key, _, _)))) => Some(key)
    case (Base64Blob, Blob(Base64(Cipher(key, _, _)))) => Some(key)
    case _ => None
  }

  /** What such a row holds that can be read is sealed under the current key. */
  lemma OutlivesMeans(keys: Keyring, store: Store, row: Row, i: nat)
    requires Fits(store, row) && i < |row.values|
    requires OutlivesPrevious(keys, store, row) && ReadColumn(keys, store, row, i).Some?
    ensures SealedUnder(store.columns[i], row.values[i].value) == Some(keys.current)
  {
  }

  lemma ColumnNeedExactly(keys: Keyring, store: Store, row: Row, i: nat)
    requires Fits(store, row) && i < |row.values|
    ensures ColumnNeed(keys, store, row, i).Seal? <==>
            || (row.flag == Some(0) && row.values[i].Some?)
            || ReadColumn(Dropped(keys), store, row, i) != ReadColumn(keys, store, row, i)
    ensures ColumnNeed(keys, store, row, i) == Unreadable <==>
            row.values[i].Some? && ReadColumn(keys, store, row, i).None?
  {
  }

  /** The values a pass binds for a row: one for each column to seal. */
  function SealedValues(keys: Keyring, store: Store, row: Row, nonce: int): (r: seq<Option<Stored>>)
    requires Fits(store, row)
    ensures |r| == |store.columns|
  {
    seq(|store.columns|, i requires 0 <= i < |store.columns| =>
      match ColumnNeed(keys, store, row, i)
      case Seal(plain) => Some(Encode(keys, store.columns[i], plain, nonce + i))
      case _ => None)
  }

  /** The row an update with those values leaves. */
  function Updated(store: Store, row: Row, sealed: seq<Option<Stored>>): (r: Row)
    requires Fits(store, row) && |sealed| == |store.columns|
    ensures Fits(store, r)
  {
    Row(seq(|row.values|, i requires 0 <= i < |row.values| =>
          if sealed[i].Some? then sealed[i] else row.values[i]),
        if store.flagged then Some(1) else row.flag)
  }

  /** Re-sealing a row leaves nothing to seal, changes what no reader opens, and
      neither mends nor breaks an unreadable value. */
  lemma ResealedRow(keys: Keyring, store: Store, row: Row, nonce: int, after: Row)
    requires Fits(store, row)
    requires after == Updated(store, row, SealedValues(keys, store, row, nonce))
    ensures !NeedsSeal(keys, store, after)
    ensures HasUnreadable(keys, store, after) <==> HasUnreadable(keys, store, row)
    ensures forall i :: 0 <= i < |row.values| ==>
              ReadColumn(keys, store, after, i) == ReadColumn(keys, store, row, i)
  {
    forall i | 0 <= i < |row.values|
      ensures ReadColumn(keys, store, after, i) == ReadColumn(keys, store, row, i)
      ensures !ColumnNeed(keys, store, after, i).Seal?
      ensures ColumnNeed(keys, store, after, i) == Unreadable <==> ColumnNeed(keys, store, row, i) == Unreadable
    {
      ResealedColumn(keys, store, row, nonce, after, i);
    }
  }

  lemma ResealedColumn(keys: Keyring, store: Store, row: Row, nonce: int, after: Row, i: nat)
    requires Fits(store, row) && i < |row.values|
    requires after == Updated(store, row, SealedValues(keys, store, row, nonce))
    ensures ReadColumn(keys, store, after, i) == ReadColumn(keys, store, row, i)
    ensures !ColumnNeed(keys, store, after, i).Seal?
    ensures ColumnNeed(keys, store, after, i) == Unreadable <==> ColumnNeed(keys, store, row, i) == Unreadable
  {
    match ColumnNeed(keys, store, row, i)
    case Seal(plain) =>
      assert after.values[i] == Some(Encode(keys, store.columns[i], plain, nonce + i));
      assert Ciphertext(store.columns[i], after.values[i].value) == Some(Cipher(keys.current, nonce + i, plain));
    case _ =>
      assert after.values[i] == row.values[i];
  }
}
