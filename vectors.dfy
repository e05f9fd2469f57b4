/**
 * The three URL hashes that test/test_hash.py expects from `hash_url`, as
 * integers, checked against the model one fold step at a time.
 */
module UrlHashVectors {
  import opened UrlHash

  /** One step of the fold on concrete values: the prefix of length `k + 1` hashes to `r`. */
  lemma Step(s: string, k: nat, h: bv32, c: char, x: bv32, r: bv32)
    requires k < |s| && Hash32(s[..k]) == h
    requires s[k] == c && Ord(c) == x && Mix(h, x) == r
    ensures Hash32(s[..k + 1]) == r
  {
    Hash32Prefix(s, k);
  }

  /**
   * The hash of a URL that starts with "https:", from the hashes of its first
   * five characters and of the whole string.
   */
  lemma HttpsHash(url: string, scheme: bv32, whole: bv32)
    requires |url| > 5 && url[0] == 'h' && url[1] == 't' && url[2] == 't' && url[3] == 'p'
    requires url[4] == 's' && url[5] == ':'
    requires Hash32(url[..5]) == scheme && Hash32(url[..|url|]) == whole
    ensures HashOfUrl(url) == Pack(U32(scheme) % TWO_16, U32(whole))
  {
    assert url[..|url|] == url;
    assert ':' !in url[..5] by {
      assert url[..5] == "https";
    }
    FirstIndexAt(url, ':', 5);
  }

  const WHATSAPP := "https://web.whatsapp.com/"

  lemma WhatsappPrefix1()
    ensures Hash32(WHATSAPP[..1]) == 1183413032
    ensures WHATSAPP[0] == 'h'
  {
    assert WHATSAPP[..0] == [];
    Step(WHATSAPP, 0, 0, 'h', 104, 1183413032);
  }

  lemma WhatsappPrefix2()
    ensures Hash32(WHATSAPP[..2]) == 1847784092
    ensures WHATSAPP[1] == 't'
  {
    WhatsappPrefix1();
    Step(WHATSAPP, 1, 1183413032, 't', 116, 1847784092);
  }

  lemma WhatsappPrefix3()
    ensures Hash32(WHATSAPP[..3]) == 911892465
    ensures WHATSAPP[2] == 't'
  {
    WhatsappPrefix2();
    Step(WHATSAPP, 2, 1847784092, 't', 116, 911892465);
  }

  lemma WhatsappPrefix4()
    ensures Hash32(WHATSAPP[..4]) == 2375774758
    ensures WHATSAPP[3] == 'p'
  {
    WhatsappPrefix3();
    Step(WHATSAPP, 3, 911892465, 'p', 112, 2375774758);
  }

  lemma WhatsappPrefix5()
    ensures Hash32(WHATSAPP[..5]) == 2213423890
    ensures WHATSAPP[4] == 's'
  {
    WhatsappPrefix4();
    Step(WHATSAPP, 4, 2375774758, 's', 115, 2213423890);
  }

  lemma WhatsappPrefix6()
    ensures Hash32(WHATSAPP[..6]) == 3220060314
    ensures WHATSAPP[5] == ':'
  {
    WhatsappPrefix5();
    Step(WHATSAPP, 5, 2213423890, ':', 58, 3220060314);
  }

  lemma WhatsappPrefix7()
    ensures Hash32(WHATSAPP[..7]) == 3151546808
  {
    WhatsappPrefix6();
    Step(WHATSAPP, 6, 3220060314, '/', 47, 3151546808);
  }

  lemma WhatsappPrefix8()
    ensures Hash32(WHATSAPP[..8]) == 1297768312
  {
    WhatsappPrefix7();
    Step(WHATSAPP, 7, 3151546808, '/', 47, 1297768312);
  }

  lemma WhatsappPrefix9()
    ensures Hash32(WHATSAPP[..9]) == 3861159950
  {
    WhatsappPrefix8();
    Step(WHATSAPP, 8, 1297768312, 'w', 119, 3861159950);
  }

  lemma WhatsappPrefix10()
    ensures Hash32(WHATSAPP[..10]) == 2424614833
  {
    WhatsappPrefix9();
    Step(WHATSAPP, 9, 3861159950, 'e', 101, 2424614833);
  }

  lemma WhatsappPrefix11()
    ensures Hash32(WHATSAPP[..11]) == 687525840
  {
    WhatsappPrefix10();
    Step(WHATSAPP, 10, 2424614833, 'b', 98, 687525840);
  }

  lemma WhatsappPrefix12()
    ensures Hash32(WHATSAPP[..12]) == 2021727251
  {
    WhatsappPrefix11();
    Step(WHATSAPP, 11, 687525840, '.', 46, 2021727251);
  }

  lemma WhatsappPrefix13()
    ensures Hash32(WHATSAPP[..13]) == 894327640
  {
    WhatsappPrefix12();
    Step(WHATSAPP, 12, 2021727251, 'w', 119, 894327640);
  }

  lemma WhatsappPrefix14()
    ensures Hash32(WHATSAPP[..14]) == 3530137726
  {
    WhatsappPrefix13();
    Step(WHATSAPP, 13, 894327640, 'h', 104, 3530137726);
  }

  lemma WhatsappPrefix15()
    ensures Hash32(WHATSAPP[..15]) == 825999651
  {
    WhatsappPrefix14();
    Step(WHATSAPP, 14, 3530137726, 'a', 97, 825999651);
  }

  lemma WhatsappPrefix16()
    ensures Hash32(WHATSAPP[..16]) == 717001474
  {
    WhatsappPrefix15();
    Step(WHATSAPP, 15, 825999651, 't', 116, 717001474);
  }

  lemma WhatsappPrefix17()
    ensures Hash32(WHATSAPP[..17]) == 2010844422
  {
    WhatsappPrefix16();
    Step(WHATSAPP, 16, 717001474, 's', 115, 2010844422);
  }

  lemma WhatsappPrefix18()
    ensures Hash32(WHATSAPP[..18]) == 1444468087
  {
    WhatsappPrefix17();
    Step(WHATSAPP, 17, 2010844422, 'a', 97, 1444468087);
  }

  lemma WhatsappPrefix19()
    ensures Hash32(WHATSAPP[..19]) == 702871370
  {
    WhatsappPrefix18();
    Step(WHATSAPP, 18, 1444468087, 'p', 112, 702871370);
  }

  lemma WhatsappPrefix20()
    ensures Hash32(WHATSAPP[..20]) == 3144913997
  {
    WhatsappPrefix19();
    Step(WHATSAPP, 19, 702871370, 'p', 112, 3144913997);
  }

  lemma WhatsappPrefix21()
    ensures Hash32(WHATSAPP[..21]) == 4054696081
  {
    WhatsappPrefix20();
    Step(WHATSAPP, 20, 3144913997, '.', 46, 4054696081);
  }

  lemma WhatsappPrefix22()
    ensures Hash32(WHATSAPP[..22]) == 716061237
  {
    WhatsappPrefix21();
    Step(WHATSAPP, 21, 4054696081, 'c', 99, 716061237);
  }

  lemma WhatsappPrefix23()
    ensures Hash32(WHATSAPP[..23]) == 249405946
  {
    WhatsappPrefix22();
    Step(WHATSAPP, 22, 716061237, 'o', 111, 249405946);
  }

  lemma WhatsappPrefix24()
    ensures Hash32(WHATSAPP[..24]) == 2979099340
  {
    WhatsappPrefix23();
    Step(WHATSAPP, 23, 249405946, 'm', 109, 2979099340);
  }

  lemma WhatsappPrefix25()
    ensures Hash32(WHATSAPP[..25]) == 2695251889
  {
    WhatsappPrefix24();
    Step(WHATSAPP, 24, 2979099340, '/', 47, 2695251889);
  }

  lemma WhatsappStartsHttps()
    ensures WHATSAPP[0] == 'h' && WHATSAPP[1] == 't' && WHATSAPP[2] == 't' && WHATSAPP[3] == 'p'
    ensures WHATSAPP[4] == 's' && WHATSAPP[5] == ':'
  {
    WhatsappPrefix1();
    WhatsappPrefix2();
    WhatsappPrefix3();
    WhatsappPrefix4();
    WhatsappPrefix5();
    WhatsappPrefix6();
  }

  /** `HashOfUrl` of the Whatsapp URL, from the hash of its scheme and of the whole string. */
  lemma WhatsappHashParts()
    ensures HashOfUrl(WHATSAPP) == Pack(U32(2213423890) % TWO_16, U32(2695251889))
  {
    WhatsappStartsHttps();
    WhatsappPrefix5();
    WhatsappPrefix25();
    HttpsHash(WHATSAPP, 2213423890, 2695251889);
  }

  /** The packing of the two parts of the Whatsapp hash. */
  lemma WhatsappPacked()
    ensures Pack(U32(2213423890) % TWO_16, U32(2695251889)) == 47359004657585
  {
  }

  /** `hash_url("https://web.whatsapp.com/")` is 47359004657585, as the test expects. */
  lemma WhatsappHash()
    ensures HashOfUrl(WHATSAPP) == 47359004657585
  {
    WhatsappHashParts();
    WhatsappPacked();
  }

  const REDDIT := "https://www.reddit.com/"

  lemma RedditPrefix1()
    ensures Hash32(REDDIT[..1]) == 1183413032
    ensures REDDIT[0] == 'h'
  {
    assert REDDIT[..0] == [];
    Step(REDDIT, 0, 0, 'h', 104, 1183413032);
  }

  lemma RedditPrefix2()
    ensures Hash32(REDDIT[..2]) == 1847784092
    ensures REDDIT[1] == 't'
  {
    RedditPrefix1();
    Step(REDDIT, 1, 1183413032, 't', 116, 1847784092);
  }

  lemma RedditPrefix3()
    ensures Hash32(REDDIT[..3]) == 911892465
    ensures REDDIT[2] == 't'
  {
    RedditPrefix2();
    Step(REDDIT, 2, 1847784092, 't', 116, 911892465);
  }

  lemma RedditPrefix4()
    ensures Hash32(REDDIT[..4]) == 2375774758
    ensures REDDIT[3] == 'p'
  {
    RedditPrefix3();
    Step(REDDIT, 3, 911892465, 'p', 112, 2375774758);
  }

  lemma RedditPrefix5()
    ensures Hash32(REDDIT[..5]) == 2213423890
    ensures REDDIT[4] == 's'
  {
    RedditPrefix4();
    Step(REDDIT, 4, 2375774758, 's', 115, 2213423890);
  }

  lemma RedditPrefix6()
    ensures Hash32(REDDIT[..6]) == 3220060314
    ensures REDDIT[5] == ':'
  {
    RedditPrefix5();
    Step(REDDIT, 5, 2213423890, ':', 58, 3220060314);
  }

  lemma RedditPrefix7()
    ensures Hash32(REDDIT[..7]) == 3151546808
  {
    RedditPrefix6();
    Step(REDDIT, 6, 3220060314, '/', 47, 3151546808);
  }

  lemma RedditPrefix8()
    ensures Hash32(REDDIT[..8]) == 1297768312
  {
    RedditPrefix7();
    Step(REDDIT, 7, 3151546808, '/', 47, 1297768312);
  }

  lemma RedditPrefix9()
    ensures Hash32(REDDIT[..9]) == 3861159950
  {
    RedditPrefix8();
    Step(REDDIT, 8, 1297768312, 'w', 119, 3861159950);
  }

  lemma RedditPrefix10()
    ensures Hash32(REDDIT[..10]) == 3917219731
  {
    RedditPrefix9();
    Step(REDDIT, 9, 3861159950, 'w', 119, 3917219731);
  }

  lemma RedditPrefix11()
    ensures Hash32(REDDIT[..11]) == 1924899642
  {
    RedditPrefix10();
    Step(REDDIT, 10, 3917219731, 'w', 119, 1924899642);
  }

  lemma RedditPrefix12()
    ensures Hash32(REDDIT[..12]) == 2912621664
  {
    RedditPrefix11();
    Step(REDDIT, 11, 1924899642, '.', 46, 2912621664);
  }

  lemma RedditPrefix13()
    ensures Hash32(REDDIT[..13]) == 4071957871
  {
    RedditPrefix12();
    Step(REDDIT, 12, 2912621664, 'r', 114, 4071957871);
  }

  lemma RedditPrefix14()
    ensures Hash32(REDDIT[..14]) == 1767684099
  {
    RedditPrefix13();
    Step(REDDIT, 13, 4071957871, 'e', 101, 1767684099);
  }

  lemma RedditPrefix15()
    ensures Hash32(REDDIT[..15]) == 1863468929
  {
    RedditPrefix14();
    Step(REDDIT, 14, 1767684099, 'd', 100, 1863468929);
  }

  lemma RedditPrefix16()
    ensures Hash32(REDDIT[..16]) == 2918655425
  {
    RedditPrefix15();
    Step(REDDIT, 15, 1863468929, 'd', 100, 2918655425);
  }

  lemma RedditPrefix17()
    ensures Hash32(REDDIT[..17]) == 1915795068
  {
    RedditPrefix16();
    Step(REDDIT, 16, 2918655425, 'i', 105, 1915795068);
  }

  lemma RedditPrefix18()
    ensures Hash32(REDDIT[..18]) == 1769960874
  {
    RedditPrefix17();
    Step(REDDIT, 17, 1915795068, 't', 116, 1769960874);
  }

  lemma RedditPrefix19()
    ensures Hash32(REDDIT[..19]) == 2306989963
  {
    RedditPrefix18();
    Step(REDDIT, 18, 1769960874, '.', 46, 2306989963);
  }

  lemma RedditPrefix20()
    ensures Hash32(REDDIT[..20]) == 388020226
  {
    RedditPrefix19();
    Step(REDDIT, 19, 2306989963, 'c', 99, 388020226);
  }

  lemma RedditPrefix21()
    ensures Hash32(REDDIT[..21]) == 2204067205
  {
    RedditPrefix20();
    Step(REDDIT, 20, 388020226, 'o', 111, 2204067205);
  }

  lemma RedditPrefix22()
    ensures Hash32(REDDIT[..22]) == 1126122677
  {
    RedditPrefix21();
    Step(REDDIT, 21, 2204067205, 'm', 109, 1126122677);
  }

  lemma RedditPrefix23()
    ensures Hash32(REDDIT[..23]) == 3409680015
  {
    RedditPrefix22();
    Step(REDDIT, 22, 1126122677, '/', 47, 3409680015);
  }

  lemma RedditStartsHttps()
    ensures REDDIT[0] == 'h' && REDDIT[1] == 't' && REDDIT[2] == 't' && REDDIT[3] == 'p'
    ensures REDDIT[4] == 's' && REDDIT[5] == ':'
  {
    RedditPrefix1();
    RedditPrefix2();
    RedditPrefix3();
    RedditPrefix4();
    RedditPrefix5();
    RedditPrefix6();
  }

  /** `HashOfUrl` of the Reddit URL, from the hash of its scheme and of the whole string. */
  lemma RedditHashParts()
    ensures HashOfUrl(REDDIT) == Pack(U32(2213423890) % TWO_16, U32(3409680015))
  {
    RedditStartsHttps();
    RedditPrefix5();
    RedditPrefix23();
    HttpsHash(REDDIT, 2213423890, 3409680015);
  }

  /** The packing of the two parts of the Reddit hash. */
  lemma RedditPacked()
    ensures Pack(U32(2213423890) % TWO_16, U32(3409680015)) == 47359719085711
  {
  }

  /** `hash_url("https://www.reddit.com/")` is 47359719085711, as the test expects. */
  lemma RedditHash()
    ensures HashOfUrl(REDDIT) == 47359719085711
  {
    RedditHashParts();
    RedditPacked();
  }

  const WIKIPEDIA := "https://en.wikipedia.org/wiki/Main_Page"

  lemma WikipediaPrefix1()
    ensures Hash32(WIKIPEDIA[..1]) == 1183413032
    ensures WIKIPEDIA[0] == 'h'
  {
    assert WIKIPEDIA[..0] == [];
    Step(WIKIPEDIA, 0, 0, 'h', 104, 1183413032);
  }

  lemma WikipediaPrefix2()
    ensures Hash32(WIKIPEDIA[..2]) == 1847784092
    ensures WIKIPEDIA[1] == 't'
  {
    WikipediaPrefix1();
    Step(WIKIPEDIA, 1, 1183413032, 't', 116, 1847784092);
  }

  lemma WikipediaPrefix3()
    ensures Hash32(WIKIPEDIA[..3]) == 911892465
    ensures WIKIPEDIA[2] == 't'
  {
    WikipediaPrefix2();
    Step(WIKIPEDIA, 2, 1847784092, 't', 116, 911892465);
  }

  lemma WikipediaPrefix4()
    ensures Hash32(WIKIPEDIA[..4]) == 2375774758
    ensures WIKIPEDIA[3] == 'p'
  {
    WikipediaPrefix3();
    Step(WIKIPEDIA, 3, 911892465, 'p', 112, 2375774758);
  }

  lemma WikipediaPrefix5()
    ensures Hash32(WIKIPEDIA[..5]) == 2213423890
    ensures WIKIPEDIA[4] == 's'
  {
    WikipediaPrefix4();
    Step(WIKIPEDIA, 4, 2375774758, 's', 115, 2213423890);
  }

  lemma WikipediaPrefix6()
    ensures Hash32(WIKIPEDIA[..6]) == 3220060314
    ensures WIKIPEDIA[5] == ':'
  {
    WikipediaPrefix5();
    Step(WIKIPEDIA, 5, 2213423890, ':', 58, 3220060314);
  }

  lemma WikipediaPrefix7()
    ensures Hash32(WIKIPEDIA[..7]) == 3151546808
  {
    WikipediaPrefix6();
    Step(WIKIPEDIA, 6, 3220060314, '/', 47, 3151546808);
  }

  lemma WikipediaPrefix8()
    ensures Hash32(WIKIPEDIA[..8]) == 1297768312
  {
    WikipediaPrefix7();
    Step(WIKIPEDIA, 7, 3151546808, '/', 47, 1297768312);
  }

  lemma WikipediaPrefix9()
    ensures Hash32(WIKIPEDIA[..9]) == 3325956364
  {
    WikipediaPrefix8();
    Step(WIKIPEDIA, 8, 1297768312, 'e', 101, 3325956364);
  }

  lemma WikipediaPrefix10()
    ensures Hash32(WIKIPEDIA[..10]) == 1026674886
  {
    WikipediaPrefix9();
    Step(WIKIPEDIA, 9, 3325956364, 'n', 110, 1026674886);
  }

  lemma WikipediaPrefix11()
    ensures Hash32(WIKIPEDIA[..11]) == 3184599393
  {
    WikipediaPrefix10();
    Step(WIKIPEDIA, 10, 1026674886, '.', 46, 3184599393);
  }

  lemma WikipediaPrefix12()
    ensures Hash32(WIKIPEDIA[..12]) == 2664315456
  {
    WikipediaPrefix11();
    Step(WIKIPEDIA, 11, 3184599393, 'w', 119, 2664315456);
  }

  lemma WikipediaPrefix13()
    ensures Hash32(WIKIPEDIA[..13]) == 1887111722
  {
    WikipediaPrefix12();
    Step(WIKIPEDIA, 12, 2664315456, 'i', 105, 1887111722);
  }

  lemma WikipediaPrefix14()
    ensures Hash32(WIKIPEDIA[..14]) == 3354162365
  {
    WikipediaPrefix13();
    Step(WIKIPEDIA, 13, 1887111722, 'k', 107, 3354162365);
  }

  lemma WikipediaPrefix15()
    ensures Hash32(WIKIPEDIA[..15]) == 1035239177
  {
    WikipediaPrefix14();
    Step(WIKIPEDIA, 14, 3354162365, 'i', 105, 1035239177);
  }

  lemma WikipediaPrefix16()
    ensures Hash32(WIKIPEDIA[..16]) == 187496159
  {
    WikipediaPrefix15();
    Step(WIKIPEDIA, 15, 1035239177, 'p', 112, 187496159);
  }

  lemma WikipediaPrefix17()
    ensures Hash32(WIKIPEDIA[..17]) == 652871268
  {
    WikipediaPrefix16();
    Step(WIKIPEDIA, 16, 187496159, 'e', 101, 652871268);
  }

  lemma WikipediaPrefix18()
    ensures Hash32(WIKIPEDIA[..18]) == 3368676832
  {
    WikipediaPrefix17();
    Step(WIKIPEDIA, 17, 652871268, 'd', 100, 3368676832);
  }

  lemma WikipediaPrefix19()
    ensures Hash32(WIKIPEDIA[..19]) == 129899760
  {
    WikipediaPrefix18();
    Step(WIKIPEDIA, 18, 3368676832, 'i', 105, 129899760);
  }

  lemma WikipediaPrefix20()
    ensures Hash32(WIKIPEDIA[..20]) == 1729121561
  {
    WikipediaPrefix19();
    Step(WIKIPEDIA, 19, 129899760, 'a', 97, 1729121561);
  }

  lemma WikipediaPrefix21()
    ensures Hash32(WIKIPEDIA[..21]) == 678477426
  {
    WikipediaPrefix20();
    Step(WIKIPEDIA, 20, 1729121561, '.', 46, 678477426);
  }

  lemma WikipediaPrefix22()
    ensures Hash32(WIKIPEDIA[..22]) == 2796279386
  {
    WikipediaPrefix21();
    Step(WIKIPEDIA, 21, 678477426, 'o', 111, 2796279386);
  }

  lemma WikipediaPrefix23()
    ensures Hash32(WIKIPEDIA[..23]) == 1760281718
  {
    WikipediaPrefix22();
    Step(WIKIPEDIA, 22, 2796279386, 'r', 114, 1760281718);
  }

  lemma WikipediaPrefix24()
    ensures Hash32(WIKIPEDIA[..24]) == 3658707674
  {
    WikipediaPrefix23();
    Step(WIKIPEDIA, 23, 1760281718, 'g', 103, 3658707674);
  }

  lemma WikipediaPrefix25()
    ensures Hash32(WIKIPEDIA[..25]) == 1759898324
  {
    WikipediaPrefix24();
    Step(WIKIPEDIA, 24, 3658707674, '/', 47, 1759898324);
  }

  lemma WikipediaPrefix26()
    ensures Hash32(WIKIPEDIA[..26]) == 478996650
  {
    WikipediaPrefix25();
    Step(WIKIPEDIA, 25, 1759898324, 'w', 119, 478996650);
  }

  lemma WikipediaPrefix27()
    ensures Hash32(WIKIPEDIA[..27]) == 4052428122
  {
    WikipediaPrefix26();
    Step(WIKIPEDIA, 26, 478996650, 'i', 105, 4052428122);
  }

  lemma WikipediaPrefix28()
    ensures Hash32(WIKIPEDIA[..28]) == 3306079821
  {
    WikipediaPrefix27();
    Step(WIKIPEDIA, 27, 4052428122, 'k', 107, 3306079821);
  }

  lemma WikipediaPrefix29()
    ensures Hash32(WIKIPEDIA[..29]) == 3337920777
  {
    WikipediaPrefix28();
    Step(WIKIPEDIA, 28, 3306079821, 'i', 105, 3337920777);
  }

  lemma WikipediaPrefix30()
    ensures Hash32(WIKIPEDIA[..30]) == 715180191
  {
    WikipediaPrefix29();
    Step(WIKIPEDIA, 29, 3337920777, '/', 47, 715180191);
  }

  lemma WikipediaPrefix31()
    ensures Hash32(WIKIPEDIA[..31]) == 2306972776
  {
    WikipediaPrefix30();
    Step(WIKIPEDIA, 30, 715180191, 'M', 77, 2306972776);
  }

  lemma WikipediaPrefix32()
    ensures Hash32(WIKIPEDIA[..32]) == 3056281072
  {
    WikipediaPrefix31();
    Step(WIKIPEDIA, 31, 2306972776, 'a', 97, 3056281072);
  }

  lemma WikipediaPrefix33()
    ensures Hash32(WIKIPEDIA[..33]) == 2468393159
  {
    WikipediaPrefix32();
    Step(WIKIPEDIA, 32, 3056281072, 'i', 105, 2468393159);
  }

  lemma WikipediaPrefix34()
    ensures Hash32(WIKIPEDIA[..34]) == 1461552316
  {
    WikipediaPrefix33();
    Step(WIKIPEDIA, 33, 2468393159, 'n', 110, 1461552316);
  }

  lemma WikipediaPrefix35()
    ensures Hash32(WIKIPEDIA[..35]) == 388261357
  {
    WikipediaPrefix34();
    Step(WIKIPEDIA, 34, 1461552316, '_', 95, 388261357);
  }

  lemma WikipediaPrefix36()
    ensures Hash32(WIKIPEDIA[..36]) == 3665470946
  {
    WikipediaPrefix35();
    Step(WIKIPEDIA, 35, 388261357, 'P', 80, 3665470946);
  }

  lemma WikipediaPrefix37()
    ensures Hash32(WIKIPEDIA[..37]) == 2645127146
  {
    WikipediaPrefix36();
    Step(WIKIPEDIA, 36, 3665470946, 'a', 97, 2645127146);
  }

  lemma WikipediaPrefix38()
    ensures Hash32(WIKIPEDIA[..38]) == 689278612
  {
    WikipediaPrefix37();
    Step(WIKIPEDIA, 37, 2645127146, 'g', 103, 689278612);
  }

  lemma WikipediaPrefix39()
    ensures Hash32(WIKIPEDIA[..39]) == 2907522016
  {
    WikipediaPrefix38();
    Step(WIKIPEDIA, 38, 689278612, 'e', 101, 2907522016);
  }

  lemma WikipediaStartsHttps()
    ensures WIKIPEDIA[0] == 'h' && WIKIPEDIA[1] == 't' && WIKIPEDIA[2] == 't' && WIKIPEDIA[3] == 'p'
    ensures WIKIPEDIA[4] == 's' && WIKIPEDIA[5] == ':'
  {
    WikipediaPrefix1();
    WikipediaPrefix2();
    WikipediaPrefix3();
    WikipediaPrefix4();
    WikipediaPrefix5();
    WikipediaPrefix6();
  }

  /** `HashOfUrl` of the Wikipedia URL, from the hash of its scheme and of the whole string. */
  lemma WikipediaHashParts()
    ensures HashOfUrl(WIKIPEDIA) == Pack(U32(2213423890) % TWO_16, U32(2907522016))
  {
    WikipediaStartsHttps();
    WikipediaPrefix5();
    WikipediaPrefix39();
    HttpsHash(WIKIPEDIA, 2213423890, 2907522016);
  }

  /** The packing of the two parts of the Wikipedia hash. */
  lemma WikipediaPacked()
    ensures Pack(U32(2213423890) % TWO_16, U32(2907522016)) == 47359216927712
  {
  }

  /** `hash_url("https://en.wikipedia.org/wiki/Main_Page")` is 47359216927712, as the test expects. */
  lemma WikipediaHash()
    ensures HashOfUrl(WIKIPEDIA) == 47359216927712
  {
    WikipediaHashParts();
    WikipediaPacked();
  }

}
