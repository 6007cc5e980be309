/**
 The loader on a two-marker manifest: the count, then a SINGLE entry and
 a MULTI entry.
 */
module ManifestExample {
  import opened SeqLemmas
  import opened Manifest

  /** The example manifest's text, cut where its count and its two entries end. */
  lemma ExampleLayout()
    ensures "2\nfoo.patt\nSINGLE 80 0 0\nbar.patt\nMULTI\n" == "2" + ("\nfoo.patt\nSINGLE 80 0 0" + "\nbar.patt\nMULTI") + "\n"
  {
    CountThenSingle();
    SingleThenMulti();
    MultiThenNewline();
    AppendAssoc("2", "\nfoo.patt\nSINGLE 80 0 0", "\nbar.patt\nMULTI");
  }

  /** The count, then the SINGLE entry. */
  lemma CountThenSingle()
    ensures "2" + "\nfoo.patt\nSINGLE 80 0 0" == "2\nfoo.patt\nSINGLE 80 0 0"
  {
  }

  /** Then the MULTI entry. */
  lemma SingleThenMulti()
    ensures "2\nfoo.patt\nSINGLE 80 0 0" + "\nbar.patt\nMULTI" == "2\nfoo.patt\nSINGLE 80 0 0\nbar.patt\nMULTI"
  {
  }

  /** Then the final newline. */
  lemma MultiThenNewline()
    ensures "2\nfoo.patt\nSINGLE 80 0 0\nbar.patt\nMULTI" + "\n" == "2\nfoo.patt\nSINGLE 80 0 0\nbar.patt\nMULTI\n"
  {
  }

  /** The example's SINGLE entry is well-formed, and this is its text. */
  lemma ExampleSingle(e: Entry)
    requires e == Entry("foo.patt", SingleType, "80", "0", "0")
    ensures WellFormed(e) && EntryText(e) == "\nfoo.patt\nSINGLE 80 0 0"
  {
    KindsAreTokens();
    assert IsToken("80") && IsToken("0");
    assert FieldsText(e) == " 80 0 0";
  }

  /** The example's MULTI entry is well-formed, and this is its text. */
  lemma ExampleMulti(e: Entry)
    requires e == Entry("bar.patt", MultiType, "", "", "")
    ensures WellFormed(e) && EntryText(e) == "\nbar.patt\nMULTI"
  {
    KindsAreTokens();
    assert FieldsText(e) == "";
  }

  /** The text of two entries is the text of the first, then that of the second. */
  lemma EntriesTextTwo(es: seq<Entry>)
    requires |es| == 2
    ensures EntriesText(es) == EntryText(es[0]) + EntryText(es[1])
  {
    assert es[1..][1..] == [];
    assert EntriesText(es[1..]) == EntryText(es[1]) + EntriesText([]);
  }

  /** The example's two entries are well-formed, and these are their texts. */
  lemma ExampleEntries(es: seq<Entry>)
    requires es == [Entry("foo.patt", SingleType, "80", "0", "0"), Entry("bar.patt", MultiType, "", "", "")]
    ensures forall i :: 0 <= i < |es| ==> WellFormed(es[i])
    ensures EntriesText(es) == "\nfoo.patt\nSINGLE 80 0 0" + "\nbar.patt\nMULTI"
  {
    ExampleSingle(es[0]);
    ExampleMulti(es[1]);
    EntriesTextTwo(es);
  }

  /**
   The example manifest of two markers: a SINGLE pattern 80 wide centred
   at the origin, then a MULTI pattern.
   */
  lemma TwoMarkers()
    ensures ManifestEntries("2\nfoo.patt\nSINGLE 80 0 0\nbar.patt\nMULTI\n")
         == [Entry("foo.patt", SingleType, "80", "0", "0"), Entry("bar.patt", MultiType, "", "", "")]
  {
    var es := [Entry("foo.patt", SingleType, "80", "0", "0"), Entry("bar.patt", MultiType, "", "", "")];
    ExampleEntries(es);
    ExampleLayout();
    assert DecimalValue("2") == 2 by {
      assert "2"[..0] == [];
    }
    ManifestEntriesAt("2\nfoo.patt\nSINGLE 80 0 0\nbar.patt\nMULTI\n", "2", es, "\n");
  }
}
