/** One world's identity, computed byte by byte: it fixes what the hash takes in, and in which order and width. */
module WorldIdentity {
  import opened Words
  import opened Facts
  import opened Commits
  import opened FrameCodec
  import opened CommitFile
  import opened Worlds
  import opened DigestCollision

  /** An allocation and a definition whose fields are all different where the layout could confuse them. */
  const OPERATIONS: seq<Operation> :=
    [AllocateEntity(2), Operation.Define([0x61], Fact(Entity(5), [0x62], Literal([0x63])))]

  lemma VersionHash()
    ensures Hashes(0xF4ED18EBF16AA5CC, 0x2, 8, 0xA47ED7BC9FEEB8E)
  {
    hide Hashes;
    NoneLeft(0xA47ED7BC9FEEB8E);
    Fold(0x3A43F249D908D3, H3, HA, H0, H0, 0x3A43F24A3C, 0xA47ED7BC9FEEB8E, 0x0, 1, 0xA47ED7BC9FEEB8E);
    Fold(0xCCFBE46309EA3E, HD, HE, H0, H0, 0xCCFBE46466, 0x3A43F249D908D33A, 0x0, 2, 0xA47ED7BC9FEEB8E);
    Fold(0x503BC5DF45776A, HA, HA, H0, H0, 0x503BC5DFCD, 0xCCFBE46309EA3EDE, 0x0, 3, 0xA47ED7BC9FEEB8E);
    Fold(0x5472C82596D131, HA, HE, H0, H0, 0x5472C82626, 0x503BC5DF45776AAA, 0x0, 4, 0xA47ED7BC9FEEB8E);
    Fold(0x286E3AF4E7A124, H9, HA, H0, H0, 0x286E3AF52C, 0x5472C82596D131AE, 0x0, 5, 0xA47ED7BC9FEEB8E);
    Fold(0x18642BB086B637, HF, HE, H0, H0, 0x18642BB0B0, 0x286E3AF4E7A1249A, 0x0, 6, 0xA47ED7BC9FEEB8E);
    Fold(0x998726EB3837BD, H0, HA, H0, H0, 0x998726EC3D, 0x18642BB086B637FE, 0x0, 7, 0xA47ED7BC9FEEB8E);
    Fold(0xF4ED18EBF16AA5, HC, HC, H0, H2, 0xF4ED18ED91, 0x998726EB3837BD0A, 0x0, 8, 0xA47ED7BC9FEEB8E);
  }

  lemma AllocatorHash()
    ensures Hashes(0xA47ED7BC9FEEB8E, 0x3, 8, 0x7B23D27F24961F2D)
  {
    hide Hashes;
    NoneLeft(0x7B23D27F24961F2D);
    Fold(0x70A933EAC842B, H9, HF, H0, H0, 0x70A933EB8, 0x7B23D27F24961F2D, 0x0, 1, 0x7B23D27F24961F2D);
    Fold(0x4FA6DD626CAE80, H6, H5, H0, H0, 0x4FA6DD62F4, 0x70A933EAC842B9F, 0x0, 2, 0x7B23D27F24961F2D);
    Fold(0x6181935334A079, H8, H7, H0, H0, 0x61819353DA, 0x4FA6DD626CAE8065, 0x0, 3, 0x7B23D27F24961F2D);
    Fold(0x968CF8C4C08FF6, HD, HD, H0, H0, 0x968CF8C5C0, 0x6181935334A07987, 0x0, 4, 0x7B23D27F24961F2D);
    Fold(0xD8C973CF9B383D, H2, HF, H0, H0, 0xD8C973D10B, 0x968CF8C4C08FF6DD, 0x0, 5, 0x7B23D27F24961F2D);
    Fold(0x9C928EEE3BCBC0, H9, H5, H0, H0, 0x9C928EEF45, 0xD8C973CF9B383D2F, 0x0, 6, 0x7B23D27F24961F2D);
    Fold(0x772416583C2A40, H9, H7, H0, H0, 0x7724165906, 0x9C928EEE3BCBC095, 0x0, 7, 0x7B23D27F24961F2D);
    Fold(0xA47ED7BC9FEEB, H8, HE, H0, H3, 0xA47ED7BDB, 0x772416583C2A4097, 0x0, 8, 0x7B23D27F24961F2D);
  }

  lemma CountHash()
    ensures Hashes(0x7B23D27F24961F2D, 0x2, 8, 0xA80289FD0F3E9B0F)
  {
    hide Hashes;
    NoneLeft(0xA80289FD0F3E9B0F);
    Fold(0x75A66AB704BE3B, H3, H5, H0, H0, 0x75A66AB7CC, 0xA80289FD0F3E9B0F, 0x0, 1, 0xA80289FD0F3E9B0F);
    Fold(0x716313FB1FCA4B, H7, H7, H0, H0, 0x716313FBE0, 0x75A66AB704BE3B35, 0x0, 2, 0xA80289FD0F3E9B0F);
    Fold(0x2566E94E17885, H2, HD, H0, H0, 0x2566E94E5, 0x716313FB1FCA4B77, 0x0, 3, 0xA80289FD0F3E9B0F);
    Fold(0xFF0727E836A92D, H9, HF, H0, H0, 0xFF0727E9E8, 0x2566E94E178852D, 0x0, 4, 0xA80289FD0F3E9B0F);
    Fold(0xE816B22D42A076, H6, H5, H0, H0, 0xE816B22ECC, 0xFF0727E836A92D9F, 0x0, 5, 0xA80289FD0F3E9B0F);
    Fold(0x4F5B76FA380FAB, H8, H7, H0, H0, 0x4F5B76FABE, 0xE816B22D42A07665, 0x0, 6, 0xA80289FD0F3E9B0F);
    Fold(0xD3FDDD0B2B16FC, HD, HD, H0, H0, 0xD3FDDD0C93, 0x4F5B76FA380FAB87, 0x0, 7, 0xA80289FD0F3E9B0F);
    Fold(0x7B23D27F24961F, H2, HD, H0, H2, 0x7B23D27FF5, 0xD3FDDD0B2B16FCDD, 0x0, 8, 0xA80289FD0F3E9B0F);
  }

  lemma AllocateTagHash()
    ensures Hashes(0xA80289FD0F3E9B0F, 0x0, 1, 0xBAEB8800E7617A7D)
  {
    hide Hashes;
    NoneLeft(0xBAEB8800E7617A7D);
    Fold(0xA80289FD0F3E9B, H0, HF, H0, H0, 0xA80289FE2C, 0xBAEB8800E7617A7D, 0x0, 1, 0xBAEB8800E7617A7D);
  }

  lemma AllocatedHash()
    ensures Hashes(0xBAEB8800E7617A7D, 0x2, 8, 0x9A3AA541538A805F)
  {
    hide Hashes;
    NoneLeft(0x9A3AA541538A805F);
    Fold(0x717B1240C8CF8, HA, H5, H0, H0, 0x717B12418, 0x9A3AA541538A805F, 0x0, 1, 0x9A3AA541538A805F);
    Fold(0xD7FE9522CE0180, H4, H7, H0, H0, 0xD7FE95243D, 0x717B1240C8CF8A5, 0x0, 2, 0x9A3AA541538A805F);
    Fold(0xD496ADE2A79BF5, H1, HD, H0, H0, 0xD496ADE410, 0xD7FE9522CE018047, 0x0, 3, 0x9A3AA541538A805F);
    Fold(0x879280BBAA76A5, HE, HF, H0, H0, 0x879280BC90, 0xD496ADE2A79BF51D, 0x0, 4, 0x9A3AA541538A805F);
    Fold(0xF465120CCA3FD4, HD, H5, H0, H0, 0xF465120E69, 0x879280BBAA76A5EF, 0x0, 5, 0x9A3AA541538A805F);
    Fold(0x1F9EFE1373393B, H5, H7, H0, H0, 0x1F9EFE13A8, 0xF465120CCA3FD4D5, 0x0, 6, 0x9A3AA541538A805F);
    Fold(0xFFB298892AA325, HC, HD, H0, H0, 0xFFB2988ADD, 0x1F9EFE1373393B57, 0x0, 7, 0x9A3AA541538A805F);
    Fold(0xBAEB8800E7617A, H7, HD, H0, H2, 0xBAEB880224, 0xFFB298892AA325CD, 0x0, 8, 0x9A3AA541538A805F);
  }

  lemma DefineTagHash()
    ensures Hashes(0x9A3AA541538A805F, 0x1, 1, 0x9C272C00F4581FBA)
  {
    hide Hashes;
    NoneLeft(0x9C272C00F4581FBA);
    Fold(0x9A3AA541538A80, H5, HF, H0, H1, 0x9A3AA54259, 0x9C272C00F4581FBA, 0x0, 1, 0x9C272C00F4581FBA);
  }

  lemma SlotLengthHash()
    ensures Hashes(0x9C272C00F4581FBA, 0x1, 8, 0x9095FCD6E61D251B)
  {
    hide Hashes;
    NoneLeft(0x9095FCD6E61D251B);
    Fold(0x695AA7BBA38B8A, HF, H9, H0, H0, 0x695AA7BC56, 0x9095FCD6E61D251B, 0x0, 1, 0x9095FCD6E61D251B);
    Fold(0xD10A640E8E34B2, HA, H3, H0, H0, 0xD10A640FF1, 0x695AA7BBA38B8AF9, 0x0, 2, 0x9095FCD6E61D251B);
    Fold(0x36AADDE914ECB3, H5, H1, H0, H0, 0x36AADDE971, 0xD10A640E8E34B2A3, 0x0, 3, 0x9095FCD6E61D251B);
    Fold(0x9E7972BA80EE4C, HE, HB, H0, H0, 0x9E7972BB8E, 0x36AADDE914ECB351, 0x0, 4, 0x9095FCD6E61D251B);
    Fold(0x6330C163415BB, HE, H9, H0, H0, 0x6330C163E, 0x9E7972BA80EE4CEB, 0x0, 5, 0x9095FCD6E61D251B);
    Fold(0x92224F8185B5E5, HF, H3, H0, H0, 0x92224F827E, 0x6330C163415BBE9, 0x0, 6, 0x9095FCD6E61D251B);
    Fold(0xAEAF809F31BDEA, HC, H1, H0, H0, 0xAEAF80A05A, 0x92224F8185B5E5F3, 0x0, 7, 0x9095FCD6E61D251B);
    Fold(0x9C272C00F4581F, HB, HA, H0, H1, 0x9C272C01FD, 0xAEAF809F31BDEAC1, 0x0, 8, 0x9095FCD6E61D251B);
  }

  lemma SlotHash()
    ensures Hashes(0x9095FCD6E61D251B, 0x61, 1, 0xCC021B290386AE4E)
  {
    hide Hashes;
    NoneLeft(0xCC021B290386AE4E);
    Fold(0x9095FCD6E61D25, H1, HB, H6, H1, 0x9095FCD7DB, 0xCC021B290386AE4E, 0x0, 1, 0xCC021B290386AE4E);
  }

  lemma SubjectTagHash()
    ensures Hashes(0xCC021B290386AE4E, 0x0, 1, 0x2E4274B0FDDA2E8A)
  {
    hide Hashes;
    NoneLeft(0x2E4274B0FDDA2E8A);
    Fold(0xCC021B290386AE, H4, HE, H0, H0, 0xCC021B2A5E, 0x2E4274B0FDDA2E8A, 0x0, 1, 0x2E4274B0FDDA2E8A);
  }

  lemma SubjectHash()
    ensures Hashes(0x2E4274B0FDDA2E8A, 0x5, 8, 0xC7F684BBD816566F)
  {
    hide Hashes;
    NoneLeft(0xC7F684BBD816566F);
    Fold(0xE590154BC2B422, H5, H5, H0, H0, 0xE590154D48, 0xC7F684BBD816566F, 0x0, 1, 0xC7F684BBD816566F);
    Fold(0x6345CB2D7D35F7, HD, H7, H0, H0, 0x6345CB2E25, 0xE590154BC2B42255, 0x0, 2, 0xC7F684BBD816566F);
    Fold(0x4CDCB914B3C837, H4, HD, H0, H0, 0x4CDCB91536, 0x6345CB2D7D35F7D7, 0x0, 3, 0xC7F684BBD816566F);
    Fold(0x6E0174F3B06062, HF, HF, H0, H0, 0x6E0174F46B, 0x4CDCB914B3C8374D, 0x0, 4, 0xC7F684BBD816566F);
    Fold(0xEE9DBBB249F7FB, H8, H5, H0, H0, 0xEE9DBBB3DF, 0x6E0174F3B06062FF, 0x0, 5, 0xC7F684BBD816566F);
    Fold(0xB9B997257C5841, HE, H7, H0, H0, 0xB9B99726B7, 0xEE9DBBB249F7FB85, 0x0, 6, 0xC7F684BBD816566F);
    Fold(0x751AD7BF59BD1C, HF, HD, H0, H0, 0x751AD7C020, 0xB9B997257C5841E7, 0x0, 7, 0xC7F684BBD816566F);
    Fold(0x2E4274B0FDDA2E, H8, HA, H0, H5, 0x2E4274B14C, 0x751AD7BF59BD1CFD, 0x0, 8, 0xC7F684BBD816566F);
  }

  lemma RelationLengthHash()
    ensures Hashes(0xC7F684BBD816566F, 0x1, 8, 0x8C5990C64C8EF02E)
  {
    hide Hashes;
    NoneLeft(0x8C5990C64C8EF02E);
    Fold(0xABC5410238AC2C, H1, HA, H0, H0, 0xABC541035C, 0x8C5990C64C8EF02E, 0x0, 1, 0x8C5990C64C8EF02E);
    Fold(0x2703CB7B976052, H7, HE, H0, H0, 0x2703CB7BD9, 0xABC5410238AC2C1A, 0x0, 2, 0x8C5990C64C8EF02E);
    Fold(0x3ED76B42325EF8, H8, HA, H0, H0, 0x3ED76B429D, 0x2703CB7B9760527E, 0x0, 3, 0x8C5990C64C8EF02E);
    Fold(0x5DC6FA2EA4E5BC, H4, HE, H0, H0, 0x5DC6FA2F44, 0x3ED76B42325EF88A, 0x0, 4, 0x8C5990C64C8EF02E);
    Fold(0x1862396135EEDF, H7, HA, H0, H0, 0x186239615F, 0x5DC6FA2EA4E5BC4E, 0x0, 5, 0x8C5990C64C8EF02E);
    Fold(0x915F56DE171361, H9, HE, H0, H0, 0x915F56DF0E, 0x1862396135EEDF7A, 0x0, 6, 0x8C5990C64C8EF02E);
    Fold(0xDE39F9302DF4DC, HE, HA, H0, H0, 0xDE39F931A7, 0x915F56DE1713619E, 0x0, 7, 0x8C5990C64C8EF02E);
    Fold(0xC7F684BBD81656, H6, HF, H0, H1, 0xC7F684BD2B, 0xDE39F9302DF4DCEA, 0x0, 8, 0x8C5990C64C8EF02E);
  }

  lemma RelationHash()
    ensures Hashes(0x8C5990C64C8EF02E, 0x62, 1, 0xB214CF416E25124)
  {
    hide Hashes;
    NoneLeft(0xB214CF416E25124);
    Fold(0x8C5990C64C8EF0, H2, HE, H6, H2, 0x8C5990C73B, 0xB214CF416E25124, 0x0, 1, 0xB214CF416E25124);
  }

  lemma TargetTagHash()
    ensures Hashes(0xB214CF416E25124, 0x1, 1, 0xCBE6E7C2E28FE1DF)
  {
    hide Hashes;
    NoneLeft(0xCBE6E7C2E28FE1DF);
    Fold(0xB214CF416E251, H2, H4, H0, H1, 0xB214CF429, 0xCBE6E7C2E28FE1DF, 0x0, 1, 0xCBE6E7C2E28FE1DF);
  }

  lemma TargetLengthHash()
    ensures Hashes(0xCBE6E7C2E28FE1DF, 0x1, 8, 0x69FBDB915618499E)
  {
    hide Hashes;
    NoneLeft(0x69FBDB915618499E);
    Fold(0xFA27D04C405854, HE, HA, H0, H0, 0xFA27D04DE9, 0x69FBDB915618499E, 0x0, 1, 0x69FBDB915618499E);
    Fold(0x2C49A889E2B8FE, H6, HE, H0, H0, 0x2C49A88A2D, 0xFA27D04C405854EA, 0x0, 2, 0x69FBDB915618499E);
    Fold(0xD1CD66494AAC44, HD, HA, H0, H0, 0xD1CD664AAF, 0x2C49A889E2B8FE6E, 0x0, 3, 0x69FBDB915618499E);
    Fold(0xB87DD85E5453F6, HB, HE, H0, H0, 0xB87DD85F8D, 0xD1CD66494AAC44DA, 0x0, 4, 0x69FBDB915618499E);
    Fold(0xA6A885545F8823, H4, HA, H0, H0, 0xA6A885557A, 0xB87DD85E5453F6BE, 0x0, 5, 0x69FBDB915618499E);
    Fold(0x309B263BA20F06, H8, HE, H0, H0, 0x309B263BF4, 0xA6A885545F88234A, 0x0, 6, 0x69FBDB915618499E);
    Fold(0x93DAE26FA7CCC, H3, HA, H0, H0, 0x93DAE270A, 0x309B263BA20F068E, 0x0, 7, 0x69FBDB915618499E);
    Fold(0xCBE6E7C2E28FE1, HD, HF, H0, H1, 0xCBE6E7C43D, 0x93DAE26FA7CCC3A, 0x0, 8, 0x69FBDB915618499E);
  }

  lemma TargetHash()
    ensures Hashes(0x69FBDB915618499E, 0x63, 1, 0x2F4014F54B45B8E7)
  {
    hide Hashes;
    NoneLeft(0x2F4014F54B45B8E7);
    Fold(0x69FBDB91561849, H9, HE, H6, H3, 0x69FBDB920A, 0x2F4014F54B45B8E7, 0x0, 1, 0x2F4014F54B45B8E7);
  }

  /** The bytes that the identity hashes. */
  const HASHED_HEADER: seq<byte> :=
    LittleEndian(GENESIS, 8) + LittleEndian(2, 8) + LittleEndian(3, 8) + LittleEndian(2, 8)

  const HASHED_ALLOCATION: seq<byte> := LittleEndian(0, 1) + LittleEndian(2, 8)

  const HASHED_DEFINITION: seq<byte> :=
    LittleEndian(1, 1) + LittleEndian(1, 8) + LittleEndian(0x61, 1)
    + (LittleEndian(0, 1) + LittleEndian(5, 8) + LittleEndian(1, 8) + LittleEndian(0x62, 1))
    + (LittleEndian(1, 1) + LittleEndian(1, 8) + LittleEndian(0x63, 1))

  lemma HeaderHash()
    ensures Digest(HASHED_HEADER) == 0xA80289FD0F3E9B0F
  {
    ParentHash();
    VersionHash();
    AllocatorHash();
    CountHash();
    hide Hashes, Digest, LittleEndian;
    var bytes := [];
    assert Digest(bytes) == FNV_OFFSET_BASIS by { EmptyHash(); }
    Joined(bytes, 0xCBF29CE484222325, GENESIS, 8, 0xF4ED18EBF16AA5CC);
    bytes := bytes + LittleEndian(GENESIS, 8);
    Joined(bytes, 0xF4ED18EBF16AA5CC, 2, 8, 0xA47ED7BC9FEEB8E);
    bytes := bytes + LittleEndian(2, 8);
    Joined(bytes, 0xA47ED7BC9FEEB8E, 3, 8, 0x7B23D27F24961F2D);
    bytes := bytes + LittleEndian(3, 8);
    Joined(bytes, 0x7B23D27F24961F2D, 2, 8, 0xA80289FD0F3E9B0F);
    bytes := bytes + LittleEndian(2, 8);
    assert bytes == HASHED_HEADER;
  }

  lemma AllocationHash()
    ensures Digest(HASHED_HEADER + HASHED_ALLOCATION) == 0x9A3AA541538A805F
  {
    HeaderHash();
    AllocateTagHash();
    AllocatedHash();
    hide Hashes, Digest, LittleEndian;
    var bytes := HASHED_HEADER;
    Joined(bytes, 0xA80289FD0F3E9B0F, 0, 1, 0xBAEB8800E7617A7D);
    bytes := bytes + LittleEndian(0, 1);
    Joined(bytes, 0xBAEB8800E7617A7D, 2, 8, 0x9A3AA541538A805F);
    bytes := bytes + LittleEndian(2, 8);
    assert bytes == HASHED_HEADER + HASHED_ALLOCATION;
  }

  lemma DefinitionHash()
    ensures Digest(HASHED_HEADER + HASHED_ALLOCATION + HASHED_DEFINITION) == 0x2F4014F54B45B8E7
  {
    AllocationHash();
    DefineTagHash();
    SlotLengthHash();
    SlotHash();
    SubjectTagHash();
    SubjectHash();
    RelationLengthHash();
    RelationHash();
    TargetTagHash();
    TargetLengthHash();
    TargetHash();
    hide Hashes, Digest, LittleEndian;
    var bytes := HASHED_HEADER + HASHED_ALLOCATION;
    Joined(bytes, 0x9A3AA541538A805F, 1, 1, 0x9C272C00F4581FBA);
    bytes := bytes + LittleEndian(1, 1);
    Joined(bytes, 0x9C272C00F4581FBA, 1, 8, 0x9095FCD6E61D251B);
    bytes := bytes + LittleEndian(1, 8);
    Joined(bytes, 0x9095FCD6E61D251B, 0x61, 1, 0xCC021B290386AE4E);
    bytes := bytes + LittleEndian(0x61, 1);
    Joined(bytes, 0xCC021B290386AE4E, 0, 1, 0x2E4274B0FDDA2E8A);
    bytes := bytes + LittleEndian(0, 1);
    Joined(bytes, 0x2E4274B0FDDA2E8A, 5, 8, 0xC7F684BBD816566F);
    bytes := bytes + LittleEndian(5, 8);
    Joined(bytes, 0xC7F684BBD816566F, 1, 8, 0x8C5990C64C8EF02E);
    bytes := bytes + LittleEndian(1, 8);
    Joined(bytes, 0x8C5990C64C8EF02E, 0x62, 1, 0xB214CF416E25124);
    bytes := bytes + LittleEndian(0x62, 1);
    Joined(bytes, 0xB214CF416E25124, 1, 1, 0xCBE6E7C2E28FE1DF);
    bytes := bytes + LittleEndian(1, 1);
    Joined(bytes, 0xCBE6E7C2E28FE1DF, 1, 8, 0x69FBDB915618499E);
    bytes := bytes + LittleEndian(1, 8);
    Joined(bytes, 0x69FBDB915618499E, 0x63, 1, 0x2F4014F54B45B8E7);
    bytes := bytes + LittleEndian(0x63, 1);
    assert bytes == HASHED_HEADER + HASHED_ALLOCATION + HASHED_DEFINITION;
  }

  lemma OneByte(b: byte)
    ensures LittleEndian(b, 1) == [b]
  {
    assert LittleEndian(b / 256, 0) == [];
  }

  /** An entity's definition with a literal as its target, field by field. */
  lemma DefinitionFields(slot: Name, subject: nat, relation: Name, target: Name)
    ensures EncodeOperation(Operation.Define(slot, Fact(Entity(subject), relation, Literal(target))))
         == [1] + ((LittleEndian(|slot|, 8) + slot)
                   + (([0] + LittleEndian(subject, 8))
                      + ((LittleEndian(|relation|, 8) + relation) + ([1] + (LittleEndian(|target|, 8) + target)))))
  {
    hide LittleEndian;
  }

  lemma Associate(a: seq<byte>, b: seq<byte>, c: seq<byte>)
    ensures a + (b + c) == a + b + c
  {
  }

  lemma Flattened(a: seq<byte>, b: seq<byte>, c: seq<byte>, d: seq<byte>, e: seq<byte>, f: seq<byte>, g: seq<byte>,
                  h: seq<byte>, i: seq<byte>, j: seq<byte>)
    ensures a + ((b + c) + ((d + e) + ((f + g) + (h + (i + j))))) == a + b + c + (d + e + f + g) + (h + i + j)
  {
    Associate(h, i, j);
    var last := h + i + j;
    Associate(d + e, f + g, last);
    Associate(d + e, f, g);
    var middle := d + e + f + g;
    Associate(a, b + c, middle + last);
    Associate(a, b, c);
    Associate(a + b + c, middle, last);
  }

  lemma HashedDefinition()
    ensures EncodeOperation(OPERATIONS[1]) == HASHED_DEFINITION
  {
    OneByte(0);
    OneByte(1);
    OneByte(0x61);
    OneByte(0x62);
    OneByte(0x63);
    hide LittleEndian;
    DefinitionFields([0x61], 5, [0x62], [0x63]);
    hide EncodeOperation;
    var one := LittleEndian(1, 8);
    Flattened([1], one, [0x61], [0], LittleEndian(5, 8), one, [0x62], [1], one, [0x63]);
  }

  lemma HashedAllocation()
    ensures EncodeOperation(OPERATIONS[0]) == HASHED_ALLOCATION
  {
    OneByte(0);
    AllocationField(2);
    hide LittleEndian;
  }

  lemma TwoOperations(first: Operation, second: Operation)
    ensures EncodeOperations([first, second]) == EncodeOperation(first) + EncodeOperation(second)
  {
    hide EncodeOperation;
    assert [first, second][1..] == [second] && [second][1..] == [];
    assert EncodeOperations([second]) == EncodeOperation(second) + [];
  }

  lemma AllocationField(entity: nat)
    ensures EncodeOperation(AllocateEntity(entity)) == [0] + LittleEndian(entity, 8)
  {
  }

  /** The identity of a world on genesis with version 2, allocator 3 and these two operations. */
  lemma KnownIdentity()
    ensures WorldIdOf(GENESIS, 2, 3, OPERATIONS) == 0x2F4014F54B45B8E7
  {
    HashedAllocation();
    HashedDefinition();
    TwoOperations(OPERATIONS[0], OPERATIONS[1]);
    DefinitionHash();
    hide Digest, LittleEndian, EncodeOperations, EncodeOperation;
    assert OPERATIONS == [OPERATIONS[0], OPERATIONS[1]];
    Associate(HASHED_HEADER, HASHED_ALLOCATION, HASHED_DEFINITION);
  }
}
