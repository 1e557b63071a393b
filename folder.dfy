/** The folder record kept in the `folders` collection, and the identifier the
    create-folder screen gives a new folder. */
module FolderRecord {
  import opened JsString

  /** One stored folder: its identifier, its display name and its creation time
      as an ISO-8601 text. */
  datatype Folder = Folder(id: string, name: string, createdAt: string)

  /** `generateUniqueId`: the clock reading in milliseconds printed in decimal. The
      clock reading is a parameter; the identifier gives it back unchanged. */
  function GenerateUniqueId(nowMillis: nat): (id: string)
    ensures id != [] && forall k :: 0 <= k < |id| ==> IsDigit(id[k])
    ensures |id| > 1 ==> DigitValue(id[0]) != 0
    ensures ParseDecimal(id) == nowMillis
  {
    ParseDecimalString(nowMillis);
    DecimalString(nowMillis)
  }

  /** Identifiers taken in different milliseconds differ. */
  lemma DistinctMillisDistinctIds(m: nat, n: nat)
    requires m != n
    ensures GenerateUniqueId(m) != GenerateUniqueId(n)
  {
    if GenerateUniqueId(m) == GenerateUniqueId(n) {
      DecimalStringInjective(m, n);
    }
  }
}
