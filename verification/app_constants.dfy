/**
 The four UUID constants of the app, written in lower case and upper-cased before use,
 and the proof that they are usable as characteristic keys.
 */
module AppConstants {
  import opened Text
  import opened Uuid

  /** The UUID literals as written in the app */
  const ServiceUuidSource := "96e4d99a-066f-444c-b67c-112345e3b1a2"
  const NotifyUuidSource := "7c0209c0-93f0-437a-828a-a58379b230c4"
  const ReadUuidSource := "3d84e60b-90d0-40d4-993a-1b83424cb868"
  const WriteUuidSource := "1b3dcc2d-cc56-4b47-b6c2-13745858c7df"

  const ServiceUuid := Uppercased(ServiceUuidSource)
  const NotifyUuid := Uppercased(NotifyUuidSource)
  const ReadUuid := Uppercased(ReadUuidSource)
  const WriteUuid := Uppercased(WriteUuidSource)

  /** Text spelled as 8-4-4-4-12 hex groups is well formed, and upper-casing it gives canonical text */
  lemma SpelledUuid(text: string, a: string, b: string, c: string, d: string, e: string)
    requires text == a + "-" + b + "-" + c + "-" + d + "-" + e
    requires |a| == 8 && |b| == 4 && |c| == 4 && |d| == 4 && |e| == 12
    requires AllHexDigits(a) && AllHexDigits(b) && AllHexDigits(c) && AllHexDigits(d) && AllHexDigits(e)
    ensures WellFormed(text) && IsCanonical(Uppercased(text))
  {
    assert text[..8] == a && text[9..13] == b && text[14..18] == c && text[19..23] == d && text[24..] == e;
    assert Canonical(text) == Uppercased(text);
  }

  lemma ServiceUuidSpelling()
    ensures ServiceUuidSource == "96e4d99a" + "-" + "066f" + "-" + "444c" + "-" + "b67c" + "-" + "112345e3b1a2"
  {
  }

  lemma ServiceUuidGroups()
    ensures AllHexDigits("96e4d99a") && AllHexDigits("066f") && AllHexDigits("444c") && AllHexDigits("b67c") && AllHexDigits("112345e3b1a2")
  {
  }

  lemma ServiceUuidIsCanonical()
    ensures IsCanonical(ServiceUuid)
  {
    ServiceUuidSpelling();
    ServiceUuidGroups();
    SpelledUuid(ServiceUuidSource, "96e4d99a", "066f", "444c", "b67c", "112345e3b1a2");
  }

  lemma NotifyUuidSpelling()
    ensures NotifyUuidSource == "7c0209c0" + "-" + "93f0" + "-" + "437a" + "-" + "828a" + "-" + "a58379b230c4"
  {
  }

  lemma NotifyUuidGroups()
    ensures AllHexDigits("7c0209c0") && AllHexDigits("93f0") && AllHexDigits("437a") && AllHexDigits("828a") && AllHexDigits("a58379b230c4")
  {
  }

  lemma NotifyUuidIsCanonical()
    ensures IsCanonical(NotifyUuid)
  {
    NotifyUuidSpelling();
    NotifyUuidGroups();
    SpelledUuid(NotifyUuidSource, "7c0209c0", "93f0", "437a", "828a", "a58379b230c4");
  }

  lemma ReadUuidSpelling()
    ensures ReadUuidSource == "3d84e60b" + "-" + "90d0" + "-" + "40d4" + "-" + "993a" + "-" + "1b83424cb868"
  {
  }

  lemma ReadUuidGroups()
    ensures AllHexDigits("3d84e60b") && AllHexDigits("90d0") && AllHexDigits("40d4") && AllHexDigits("993a") && AllHexDigits("1b83424cb868")
  {
  }

  lemma ReadUuidIsCanonical()
    ensures IsCanonical(ReadUuid)
  {
    ReadUuidSpelling();
    ReadUuidGroups();
    SpelledUuid(ReadUuidSource, "3d84e60b", "90d0", "40d4", "993a", "1b83424cb868");
  }

  lemma WriteUuidSpelling()
    ensures WriteUuidSource == "1b3dcc2d" + "-" + "cc56" + "-" + "4b47" + "-" + "b6c2" + "-" + "13745858c7df"
  {
  }

  lemma WriteUuidGroups()
    ensures AllHexDigits("1b3dcc2d") && AllHexDigits("cc56") && AllHexDigits("4b47") && AllHexDigits("b6c2") && AllHexDigits("13745858c7df")
  {
  }

  lemma WriteUuidIsCanonical()
    ensures IsCanonical(WriteUuid)
  {
    WriteUuidSpelling();
    WriteUuidGroups();
    SpelledUuid(WriteUuidSource, "1b3dcc2d", "cc56", "4b47", "b6c2", "13745858c7df");
  }

  /** The four UUIDs the app wires up: one service and its notify, read and write characteristics */
  datatype AppUuids = AppUuids(service: string, notify: string, read: string, write: string)

  const App := AppUuids(ServiceUuid, NotifyUuid, ReadUuid, WriteUuid)

  /** Canonical text throughout, and three different characteristic keys */
  predicate Usable(u: AppUuids) {
    && IsCanonical(u.service) && IsCanonical(u.notify) && IsCanonical(u.read) && IsCanonical(u.write)
    && u.notify != u.read && u.notify != u.write && u.read != u.write
  }

  /** The app's own constants are usable */
  lemma AppIsUsable()
    ensures Usable(App)
  {
    ServiceUuidIsCanonical();
    NotifyUuidIsCanonical();
    ReadUuidIsCanonical();
    WriteUuidIsCanonical();
    assert NotifyUuid[0] == '7' && ReadUuid[0] == '3' && WriteUuid[0] == '1';
  }
}
