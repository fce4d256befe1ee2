/** The tables of the hash functions: what the twelve rounds make of the initialization vectors. */
module HashTables {
  import opened AsconRounds

  // ---------------------------------------------------------------- the rounds on given words

  // The linear layer with its rotations written as shifts, which is quick to evaluate.
  function Shifted0(x: bv64): bv64 { Xor(Xor(x, (x >> 19) | (x << 45)), (x >> 28) | (x << 36)) }

  function Shifted1(x: bv64): bv64 { Xor(Xor(x, (x >> 61) | (x << 3)), (x >> 39) | (x << 25)) }

  function Shifted2(x: bv64): bv64 { Xor(Xor(x, (x >> 1) | (x << 63)), (x >> 6) | (x << 58)) }

  function Shifted3(x: bv64): bv64 { Xor(Xor(x, (x >> 10) | (x << 54)), (x >> 17) | (x << 47)) }

  function Shifted4(x: bv64): bv64 { Xor(Xor(x, (x >> 7) | (x << 57)), (x >> 41) | (x << 23)) }

  function Turn(s: Words, c: bv64): Words {
    var t := Substitute(s.(x2 := Xor(s.x2, c)));
    Words(Shifted0(t.x0), Shifted1(t.x1), Shifted2(t.x2), Shifted3(t.x3), Shifted4(t.x4))
  }

  lemma Layer0(x: bv64)
    ensures Shifted0(x) == Layer(x, 19, 28)
  {
    hide Xor, Rotate;
    RotateBy19(x);
    RotateBy28(x);
  }

  lemma Layer1(x: bv64)
    ensures Shifted1(x) == Layer(x, 61, 39)
  {
    hide Xor, Rotate;
    RotateBy61(x);
    RotateBy39(x);
  }

  lemma Layer2(x: bv64)
    ensures Shifted2(x) == Layer(x, 1, 6)
  {
    hide Xor, Rotate;
    RotateBy1(x);
    RotateBy6(x);
  }

  lemma Layer3(x: bv64)
    ensures Shifted3(x) == Layer(x, 10, 17)
  {
    hide Xor, Rotate;
    RotateBy10(x);
    RotateBy17(x);
  }

  lemma Layer4(x: bv64)
    ensures Shifted4(x) == Layer(x, 7, 41)
  {
    hide Xor, Rotate;
    RotateBy7(x);
    RotateBy41(x);
  }

  lemma Next(s: Words, t: Words, i: nat, c: bv64)
    requires i < 12 && ROUND_CONSTANTS[i] == c && Turn(s, c) == t
    ensures Rounds(s, i) == Rounds(t, i + 1)
  {
    hide Shifted0, Shifted1, Shifted2, Shifted3, Shifted4, Substitute, Layer, Xor;
    var u := Substitute(AddConstant(s, i));
    Layer0(u.x0);
    Layer1(u.x1);
    Layer2(u.x2);
    Layer3(u.x3);
    Layer4(u.x4);
  }

  lemma NoMoreRounds(s: Words)
    ensures Rounds(s, 12) == s
  {
  }

  lemma Constants()
    ensures ROUND_CONSTANTS[0] == 0xF0 && ROUND_CONSTANTS[1] == 0xE1 && ROUND_CONSTANTS[2] == 0xD2 && ROUND_CONSTANTS[3] == 0xC3
    ensures ROUND_CONSTANTS[4] == 0xB4 && ROUND_CONSTANTS[5] == 0xA5 && ROUND_CONSTANTS[6] == 0x96 && ROUND_CONSTANTS[7] == 0x87
    ensures ROUND_CONSTANTS[8] == 0x78 && ROUND_CONSTANTS[9] == 0x69 && ROUND_CONSTANTS[10] == 0x5A && ROUND_CONSTANTS[11] == 0x4B
  {
  }

  // ---------------------------------------------------------------- the tables

  const XOF_TABLE: Words :=
    Words(0xb57e273b814cd416, 0x2b51042562ae2420, 0x66a3a7768ddf2218, 0x5aad0a7a8153650c, 0x4f3e0e32539493b6)

  const HASH_TABLE: Words :=
    Words(0xee9398aadb67f03d, 0x8bb21831c60f1002, 0xb48a92db98d5da62, 0x43189921b8f8e3e8, 0x348fa5c9d525e140)

  const XOFA_TABLE: Words :=
    Words(0x44906568b77b9832, 0xcd8d6cae53455532, 0xf7b5212756422129, 0x246885e1de0d225b, 0xa8cb5ce33449973f)

  const HASHA_TABLE: Words :=
    Words(0x01470194fc6528a6, 0x738ec38ac0adffa7, 0x2ec8e3296c76384c, 0xd6f6a54d7f52377d, 0xa13c42a223be8d87)

  lemma XofFirst()
    ensures Rounds(Words(0x00400c0000000000, 0, 0, 0, 0), 0)
         == Rounds(Words(0x616a56a31775be23, 0x616e9b693e7b218f, 0x94e5cbbf6bb9e11a, 0x6ee4c59b124cf3c9, 0x65ff84b7831a4748), 3)
  {
    hide Rounds;
    Constants();
    Next(Words(0x00400c0000000000, 0, 0, 0, 0),
         Words(0x005e03080580c0f0, 0x02406c01e0008768, 0x3fffffffffffff74, 0x3c381c23060000f0, 0x0000000000000000), 0, 0xF0);
    Next(Words(0x005e03080580c0f0, 0x02406c01e0008768, 0x3fffffffffffff74, 0x3c381c23060000f0, 0x0000000000000000),
         Words(0x33d1b97ffdfb2d5d, 0x2f5a893f33f98485, 0xa8695bb11780c69f, 0xde877c56eb532bdc, 0xdf3700c15fd31bcf), 1, 0xE1);
    Next(Words(0x33d1b97ffdfb2d5d, 0x2f5a893f33f98485, 0xa8695bb11780c69f, 0xde877c56eb532bdc, 0xdf3700c15fd31bcf),
         Words(0x616a56a31775be23, 0x616e9b693e7b218f, 0x94e5cbbf6bb9e11a, 0x6ee4c59b124cf3c9, 0x65ff84b7831a4748), 2, 0xD2);
  }

  lemma XofSecond()
    ensures Rounds(Words(0x616a56a31775be23, 0x616e9b693e7b218f, 0x94e5cbbf6bb9e11a, 0x6ee4c59b124cf3c9, 0x65ff84b7831a4748), 3)
         == Rounds(Words(0xada1e687f353b647, 0xfa7a0fad9174d0fb, 0x95cfa681e3a38947, 0x7322121457ddb014, 0x539ca6a43e8afc1d), 6)
  {
    hide Rounds;
    Constants();
    Next(Words(0x616a56a31775be23, 0x616e9b693e7b218f, 0x94e5cbbf6bb9e11a, 0x6ee4c59b124cf3c9, 0x65ff84b7831a4748),
         Words(0x215ad66473accc9d, 0xe639dba3deaf4fcb, 0x2af5c6378a141a93, 0x9ced74001f7932f0, 0x4278098f328501c9), 3, 0xC3);
    Next(Words(0x215ad66473accc9d, 0xe639dba3deaf4fcb, 0x2af5c6378a141a93, 0x9ced74001f7932f0, 0x4278098f328501c9),
         Words(0x68cc2c7eb0279585, 0xcb24cfd96558c937, 0x207691b95c0ffc3b, 0x7277bf0a44b0ee18, 0xf9e0d86c753183ef), 4, 0xB4);
    Next(Words(0x68cc2c7eb0279585, 0xcb24cfd96558c937, 0x207691b95c0ffc3b, 0x7277bf0a44b0ee18, 0xf9e0d86c753183ef),
         Words(0xada1e687f353b647, 0xfa7a0fad9174d0fb, 0x95cfa681e3a38947, 0x7322121457ddb014, 0x539ca6a43e8afc1d), 5, 0xA5);
  }

  lemma XofThird()
    ensures Rounds(Words(0xada1e687f353b647, 0xfa7a0fad9174d0fb, 0x95cfa681e3a38947, 0x7322121457ddb014, 0x539ca6a43e8afc1d), 6)
         == Rounds(Words(0xec34fd258a066d03, 0x4dda41fdfa691da3, 0x0a9b1a83d76d3b3b, 0x09f359cd3d1f7e8c, 0xfae246c17d27657f), 9)
  {
    hide Rounds;
    Constants();
    Next(Words(0xada1e687f353b647, 0xfa7a0fad9174d0fb, 0x95cfa681e3a38947, 0x7322121457ddb014, 0x539ca6a43e8afc1d),
         Words(0x8a23ff5ae90fd4ca, 0xa3b15d0888342fe6, 0xaafed083b92b3419, 0x48c83c0940af038c, 0xee81fba45591454c), 6, 0x96);
    Next(Words(0x8a23ff5ae90fd4ca, 0xa3b15d0888342fe6, 0xaafed083b92b3419, 0x48c83c0940af038c, 0xee81fba45591454c),
         Words(0xbc2d400280905726, 0x1bb8a182941362ca, 0xe5abaffff5673227, 0xad54e8fa6829a391, 0x3398a0a41f26f83e), 7, 0x87);
    Next(Words(0xbc2d400280905726, 0x1bb8a182941362ca, 0xe5abaffff5673227, 0xad54e8fa6829a391, 0x3398a0a41f26f83e),
         Words(0xec34fd258a066d03, 0x4dda41fdfa691da3, 0x0a9b1a83d76d3b3b, 0x09f359cd3d1f7e8c, 0xfae246c17d27657f), 8, 0x78);
  }

  lemma XofFourth()
    ensures Rounds(Words(0xec34fd258a066d03, 0x4dda41fdfa691da3, 0x0a9b1a83d76d3b3b, 0x09f359cd3d1f7e8c, 0xfae246c17d27657f), 9)
         == Rounds(Words(0xb57e273b814cd416, 0x2b51042562ae2420, 0x66a3a7768ddf2218, 0x5aad0a7a8153650c, 0x4f3e0e32539493b6), 12)
  {
    hide Rounds;
    Constants();
    Next(Words(0xec34fd258a066d03, 0x4dda41fdfa691da3, 0x0a9b1a83d76d3b3b, 0x09f359cd3d1f7e8c, 0xfae246c17d27657f),
         Words(0xaf172ee08964bc2d, 0xe8704a95dc4f6c58, 0x1acb094b5dfd5b22, 0xd45be540a1ea6409, 0xd1c955ac5abde2c3), 9, 0x69);
    Next(Words(0xaf172ee08964bc2d, 0xe8704a95dc4f6c58, 0x1acb094b5dfd5b22, 0xd45be540a1ea6409, 0xd1c955ac5abde2c3),
         Words(0xa70be609420b2801, 0xa515ecc9621da64a, 0xfe95e87982e50e3b, 0xea1c189b48c205cf, 0x0e427dce61fddccf), 10, 0x5A);
    Next(Words(0xa70be609420b2801, 0xa515ecc9621da64a, 0xfe95e87982e50e3b, 0xea1c189b48c205cf, 0x0e427dce61fddccf),
         Words(0xb57e273b814cd416, 0x2b51042562ae2420, 0x66a3a7768ddf2218, 0x5aad0a7a8153650c, 0x4f3e0e32539493b6), 11, 0x4B);
  }

  lemma XofTable()
    ensures Rounds(Words(0x00400c0000000000, 0, 0, 0, 0), 0) == XOF_TABLE
  {
    hide Rounds;
    XofFirst();
    XofSecond();
    XofThird();
    XofFourth();
    NoMoreRounds(XOF_TABLE);
  }

  lemma HashFirst()
    ensures Rounds(Words(0x00400c0000000100, 0, 0, 0, 0), 0)
         == Rounds(Words(0x476a946146dd7355, 0xc85b138c3f586699, 0xe5cdd187a5b8e3ce, 0x4c063d7c5e05570c, 0x2445fee59a105e74), 3)
  {
    hide Rounds;
    Constants();
    Next(Words(0x00400c0000000100, 0, 0, 0, 0),
         Words(0x007e13080580c1f0, 0x02406c03e0008e68, 0x3fffffffffffff74, 0x7cb81c23060001f0, 0x0000000000000000), 0, 0xF0);
    Next(Words(0x007e13080580c1f0, 0x02406c03e0008e68, 0x3fffffffffffff74, 0x7cb81c23060001f0, 0x0000000000000000),
         Words(0x7371a16ff5fa2d5d, 0x6a7a192f3379cda7, 0xa8695bb21f80cb3b, 0x9a177c14ebd223de, 0x9e3600c75bf353df), 1, 0xE1);
    Next(Words(0x7371a16ff5fa2d5d, 0x6a7a192f3379cda7, 0xa8695bb21f80cb3b, 0x9a177c14ebd223de, 0x9e3600c75bf353df),
         Words(0x476a946146dd7355, 0xc85b138c3f586699, 0xe5cdd187a5b8e3ce, 0x4c063d7c5e05570c, 0x2445fee59a105e74), 2, 0xD2);
  }

  lemma HashSecond()
    ensures Rounds(Words(0x476a946146dd7355, 0xc85b138c3f586699, 0xe5cdd187a5b8e3ce, 0x4c063d7c5e05570c, 0x2445fee59a105e74), 3)
         == Rounds(Words(0xfcb4eb9f6fe1b663, 0xea63f8d3f8f534e8, 0xc21428a636730a87, 0x131a5cae69929daf, 0x9ba4ca1a149a2554), 6)
  {
    hide Rounds;
    Constants();
    Next(Words(0x476a946146dd7355, 0xc85b138c3f586699, 0xe5cdd187a5b8e3ce, 0x4c063d7c5e05570c, 0x2445fee59a105e74),
         Words(0x0cceb09bdfedb1c3, 0x473ac6b77729bc1a, 0x64f42332c01cf6de, 0x07d90bc9aa53df88, 0x6920779134bb489e), 3, 0xC3);
    Next(Words(0x0cceb09bdfedb1c3, 0x473ac6b77729bc1a, 0x64f42332c01cf6de, 0x07d90bc9aa53df88, 0x6920779134bb489e),
         Words(0x54f43d4d0ee67a67, 0xdc202e78eb690582, 0x08c99ce6db226583, 0x5a31f380b3edfff4, 0x32f5cedddbe2648c), 4, 0xB4);
    Next(Words(0x54f43d4d0ee67a67, 0xdc202e78eb690582, 0x08c99ce6db226583, 0x5a31f380b3edfff4, 0x32f5cedddbe2648c),
         Words(0xfcb4eb9f6fe1b663, 0xea63f8d3f8f534e8, 0xc21428a636730a87, 0x131a5cae69929daf, 0x9ba4ca1a149a2554), 5, 0xA5);
  }

  lemma HashThird()
    ensures Rounds(Words(0xfcb4eb9f6fe1b663, 0xea63f8d3f8f534e8, 0xc21428a636730a87, 0x131a5cae69929daf, 0x9ba4ca1a149a2554), 6)
         == Rounds(Words(0x8d1a27b5dbefba5f, 0x263c269fefa180c3, 0xb90f219404d6bcf4, 0xfcc893c302a96e45, 0x509e146ea76c7a1c), 9)
  {
    hide Rounds;
    Constants();
    Next(Words(0xfcb4eb9f6fe1b663, 0xea63f8d3f8f534e8, 0xc21428a636730a87, 0x131a5cae69929daf, 0x9ba4ca1a149a2554),
         Words(0xc82b92ead08b0173, 0x9c58426411419527, 0x29c649e15f5cd678, 0x147d77e5d4268355, 0x15a2323529f7ebac), 6, 0x96);
    Next(Words(0xc82b92ead08b0173, 0x9c58426411419527, 0x29c649e15f5cd678, 0x147d77e5d4268355, 0x15a2323529f7ebac),
         Words(0x4c362cf1876ff66c, 0xd5ee62f1ccde3930, 0xd33d818e7e4af19a, 0xe1af7a384215024a, 0x4bf2f1c1f0ab1aa1), 7, 0x87);
    Next(Words(0x4c362cf1876ff66c, 0xd5ee62f1ccde3930, 0xd33d818e7e4af19a, 0xe1af7a384215024a, 0x4bf2f1c1f0ab1aa1),
         Words(0x8d1a27b5dbefba5f, 0x263c269fefa180c3, 0xb90f219404d6bcf4, 0xfcc893c302a96e45, 0x509e146ea76c7a1c), 8, 0x78);
  }

  lemma HashFourth()
    ensures Rounds(Words(0x8d1a27b5dbefba5f, 0x263c269fefa180c3, 0xb90f219404d6bcf4, 0xfcc893c302a96e45, 0x509e146ea76c7a1c), 9)
         == Rounds(Words(0xee9398aadb67f03d, 0x8bb21831c60f1002, 0xb48a92db98d5da62, 0x43189921b8f8e3e8, 0x348fa5c9d525e140), 12)
  {
    hide Rounds;
    Constants();
    Next(Words(0x8d1a27b5dbefba5f, 0x263c269fefa180c3, 0xb90f219404d6bcf4, 0xfcc893c302a96e45, 0x509e146ea76c7a1c),
         Words(0x74f7e043c285b4e5, 0x18c858dd36192d7c, 0x3534e9478bed892b, 0xf321a2e8e946ae6d, 0xe9e12c24186fe9b1), 9, 0x69);
    Next(Words(0x74f7e043c285b4e5, 0x18c858dd36192d7c, 0x3534e9478bed892b, 0xf321a2e8e946ae6d, 0xe9e12c24186fe9b1),
         Words(0x16156d6efaffb97f, 0x55f8a2ed9f5ffe6d, 0x3cc9ee587e7b9f3a, 0x06e7b40734a06288, 0xd856135b869f1374), 10, 0x5A);
    Next(Words(0x16156d6efaffb97f, 0x55f8a2ed9f5ffe6d, 0x3cc9ee587e7b9f3a, 0x06e7b40734a06288, 0xd856135b869f1374),
         Words(0xee9398aadb67f03d, 0x8bb21831c60f1002, 0xb48a92db98d5da62, 0x43189921b8f8e3e8, 0x348fa5c9d525e140), 11, 0x4B);
  }

  lemma HashTable()
    ensures Rounds(Words(0x00400c0000000100, 0, 0, 0, 0), 0) == HASH_TABLE
  {
    hide Rounds;
    HashFirst();
    HashSecond();
    HashThird();
    HashFourth();
    NoMoreRounds(HASH_TABLE);
  }

  lemma XofaFirst()
    ensures Rounds(Words(0x00400c0400000000, 0, 0, 0, 0), 0)
         == Rounds(Words(0xeba09cd4cff96f80, 0x723a15a65df73dc8, 0x77dec0262bfa2ea0, 0x1387ab1904d1fd21, 0xd47d07bb9a76cae8), 3)
  {
    hide Rounds;
    Constants();
    Next(Words(0x00400c0400000000, 0, 0, 0, 0),
         Words(0x005e030c058040b0, 0x0a406c25e0008768, 0x3fffffffffffff74, 0x3c381c27070200f0, 0x0000000000000000), 0, 0xF0);
    Next(Words(0x005e030c058040b0, 0x0a406c25e0008768, 0x3fffffffffffff74, 0x3c381c27070200f0, 0x0000000000000000),
         Words(0x63f1b97bfcf9ad3d, 0x275a891fb3ed06c5, 0xa4495b878780c69f, 0x96857876e341ab7d, 0x452781a536d79e8f), 1, 0xE1);
    Next(Words(0x63f1b97bfcf9ad3d, 0x275a891fb3ed06c5, 0xa4495b878780c69f, 0x96857876e341ab7d, 0x452781a536d79e8f),
         Words(0xeba09cd4cff96f80, 0x723a15a65df73dc8, 0x77dec0262bfa2ea0, 0x1387ab1904d1fd21, 0xd47d07bb9a76cae8), 2, 0xD2);
  }

  lemma XofaSecond()
    ensures Rounds(Words(0xeba09cd4cff96f80, 0x723a15a65df73dc8, 0x77dec0262bfa2ea0, 0x1387ab1904d1fd21, 0xd47d07bb9a76cae8), 3)
         == Rounds(Words(0x8362e0b530f067c2, 0x80e25d33e412a9ca, 0xd2bf99a93b836ef2, 0x732a37e79db7e139, 0x48711bb771a1d801), 6)
  {
    hide Rounds;
    Constants();
    Next(Words(0xeba09cd4cff96f80, 0x723a15a65df73dc8, 0x77dec0262bfa2ea0, 0x1387ab1904d1fd21, 0xd47d07bb9a76cae8),
         Words(0xb9c924de032600f6, 0x2b7602bc79178250, 0x51ab3508ee71ca68, 0xc4959be3c0e34400, 0x059c72e577396d43), 3, 0xC3);
    Next(Words(0xb9c924de032600f6, 0x2b7602bc79178250, 0x51ab3508ee71ca68, 0xc4959be3c0e34400, 0x059c72e577396d43),
         Words(0x55682cc5528a0c3a, 0xd76a74a44623edf0, 0x042f56c9cd3f5750, 0xed49ded6d725572f, 0x04f0d3043a460ba1), 4, 0xB4);
    Next(Words(0x55682cc5528a0c3a, 0xd76a74a44623edf0, 0x042f56c9cd3f5750, 0xed49ded6d725572f, 0x04f0d3043a460ba1),
         Words(0x8362e0b530f067c2, 0x80e25d33e412a9ca, 0xd2bf99a93b836ef2, 0x732a37e79db7e139, 0x48711bb771a1d801), 5, 0xA5);
  }

  lemma XofaThird()
    ensures Rounds(Words(0x8362e0b530f067c2, 0x80e25d33e412a9ca, 0xd2bf99a93b836ef2, 0x732a37e79db7e139, 0x48711bb771a1d801), 6)
         == Rounds(Words(0x5faeebfbdb27ea14, 0x6cf9d6745851e884, 0xa460349f99a75b2e, 0x56e1c33d699e48de, 0x674428f84d7947a4), 9)
  {
    hide Rounds;
    Constants();
    Next(Words(0x8362e0b530f067c2, 0x80e25d33e412a9ca, 0xd2bf99a93b836ef2, 0x732a37e79db7e139, 0x48711bb771a1d801),
         Words(0x16e3aac793ec9c3e, 0x47c373d931b66df6, 0x319d6602355888f8, 0x203615762c98f009, 0x6b68542d1299ccd6), 6, 0x96);
    Next(Words(0x16e3aac793ec9c3e, 0x47c373d931b66df6, 0x319d6602355888f8, 0x203615762c98f009, 0x6b68542d1299ccd6),
         Words(0x6740a8b3f4713a77, 0x72e9f6e356522cbd, 0x2096d993aa3c5daa, 0xd89082abc52fc421, 0xfe8b3d427e3a98ca), 7, 0x87);
    Next(Words(0x6740a8b3f4713a77, 0x72e9f6e356522cbd, 0x2096d993aa3c5daa, 0xd89082abc52fc421, 0xfe8b3d427e3a98ca),
         Words(0x5faeebfbdb27ea14, 0x6cf9d6745851e884, 0xa460349f99a75b2e, 0x56e1c33d699e48de, 0x674428f84d7947a4), 8, 0x78);
  }

  lemma XofaFourth()
    ensures Rounds(Words(0x5faeebfbdb27ea14, 0x6cf9d6745851e884, 0xa460349f99a75b2e, 0x56e1c33d699e48de, 0x674428f84d7947a4), 9)
         == Rounds(Words(0x44906568b77b9832, 0xcd8d6cae53455532, 0xf7b5212756422129, 0x246885e1de0d225b, 0xa8cb5ce33449973f), 12)
  {
    hide Rounds;
    Constants();
    Next(Words(0x5faeebfbdb27ea14, 0x6cf9d6745851e884, 0xa460349f99a75b2e, 0x56e1c33d699e48de, 0x674428f84d7947a4),
         Words(0xa280bd4e6d781d79, 0x0125d1978d2d0b5c, 0x6d0aa7e977b5cfbe, 0x36051f0d7f94c7e2, 0x51e9e569b105599f), 9, 0x69);
    Next(Words(0xa280bd4e6d781d79, 0x0125d1978d2d0b5c, 0x6d0aa7e977b5cfbe, 0x36051f0d7f94c7e2, 0x51e9e569b105599f),
         Words(0x6dee2895897b22ba, 0x5c3e1900a1f847d1, 0xd06cbcb6c1c0aa7a, 0xd743bc1395ec0923, 0x574063c994bd4272), 10, 0x5A);
    Next(Words(0x6dee2895897b22ba, 0x5c3e1900a1f847d1, 0xd06cbcb6c1c0aa7a, 0xd743bc1395ec0923, 0x574063c994bd4272),
         Words(0x44906568b77b9832, 0xcd8d6cae53455532, 0xf7b5212756422129, 0x246885e1de0d225b, 0xa8cb5ce33449973f), 11, 0x4B);
  }

  lemma XofaTable()
    ensures Rounds(Words(0x00400c0400000000, 0, 0, 0, 0), 0) == XOFA_TABLE
  {
    hide Rounds;
    XofaFirst();
    XofaSecond();
    XofaThird();
    XofaFourth();
    NoMoreRounds(XOFA_TABLE);
  }

  lemma HashaFirst()
    ensures Rounds(Words(0x00400c0400000100, 0, 0, 0, 0), 0)
         == Rounds(Words(0x8984c482ce5ba2d6, 0xbe3f9dc014543e5c, 0x67ee9a7fe5fb2c74, 0x717573fa499a59e4, 0x9567bce9135cc2b6), 3)
  {
    hide Rounds;
    Constants();
    Next(Words(0x00400c0400000100, 0, 0, 0, 0),
         Words(0x007e130c058041b0, 0x0a406c27e0008e68, 0x3fffffffffffff74, 0x7cb81c27070201f0, 0x0000000000000000), 0, 0xF0);
    Next(Words(0x007e130c058041b0, 0x0a406c27e0008e68, 0x3fffffffffffff74, 0x7cb81c27070201f0, 0x0000000000000000),
         Words(0x2351a16bf4f8ad3d, 0x627a190fb36d4fe7, 0xa4495b848f80cb3b, 0xd2157834e3c0a37f, 0x042681a332f7d69f), 1, 0xE1);
    Next(Words(0x2351a16bf4f8ad3d, 0x627a190fb36d4fe7, 0xa4495b848f80cb3b, 0xd2157834e3c0a37f, 0x042681a332f7d69f),
         Words(0x8984c482ce5ba2d6, 0xbe3f9dc014543e5c, 0x67ee9a7fe5fb2c74, 0x717573fa499a59e4, 0x9567bce9135cc2b6), 2, 0xD2);
  }

  lemma HashaSecond()
    ensures Rounds(Words(0x8984c482ce5ba2d6, 0xbe3f9dc014543e5c, 0x67ee9a7fe5fb2c74, 0x717573fa499a59e4, 0x9567bce9135cc2b6), 3)
         == Rounds(Words(0xd5a9c9d9a21e3be5, 0x610342eba32cb29d, 0x0ac8d99ff5c346e3, 0x9a2fd921eb2b050d, 0x04e7ebff9b89149f), 6)
  {
    hide Rounds;
    Constants();
    Next(Words(0x8984c482ce5ba2d6, 0xbe3f9dc014543e5c, 0x67ee9a7fe5fb2c74, 0x717573fa499a59e4, 0x9567bce9135cc2b6),
         Words(0x2432cb7372f1053c, 0x72bdf95a102eda6a, 0xe9b2ffb0966e0939, 0x2f9443fdc06d62af, 0x932f1d44db00af61), 3, 0xC3);
    Next(Words(0x2432cb7372f1053c, 0x72bdf95a102eda6a, 0xe9b2ffb0966e0939, 0x2f9443fdc06d62af, 0x932f1d44db00af61),
         Words(0xc9e15c6a907484cc, 0x995e4ab8f6f0b8b8, 0xed65780b866a8f71, 0x2ef1a7fdd54a8f80, 0xdd66f0d01f0b576c), 4, 0xB4);
    Next(Words(0xc9e15c6a907484cc, 0x995e4ab8f6f0b8b8, 0xed65780b866a8f71, 0x2ef1a7fdd54a8f80, 0xdd66f0d01f0b576c),
         Words(0xd5a9c9d9a21e3be5, 0x610342eba32cb29d, 0x0ac8d99ff5c346e3, 0x9a2fd921eb2b050d, 0x04e7ebff9b89149f), 5, 0xA5);
  }

  lemma HashaThird()
    ensures Rounds(Words(0xd5a9c9d9a21e3be5, 0x610342eba32cb29d, 0x0ac8d99ff5c346e3, 0x9a2fd921eb2b050d, 0x04e7ebff9b89149f), 6)
         == Rounds(Words(0xb2470aaa0450b49e, 0x6ab6759c85b02264, 0x01d7855fe5f3569b, 0x575664f3e9a6a82a, 0xcd24de2ba7d04568), 9)
  {
    hide Rounds;
    Constants();
    Next(Words(0xd5a9c9d9a21e3be5, 0x610342eba32cb29d, 0x0ac8d99ff5c346e3, 0x9a2fd921eb2b050d, 0x04e7ebff9b89149f),
         Words(0x45e0c55a3206cbaf, 0xcf6286aa58eb5fe0, 0x4ecdb46633be5629, 0x9440b222beed0944, 0x9a4da5b356b0f0ac), 6, 0x96);
    Next(Words(0x45e0c55a3206cbaf, 0xcf6286aa58eb5fe0, 0x4ecdb46633be5629, 0x9440b222beed0944, 0x9a4da5b356b0f0ac),
         Words(0x7ac71b4e596d4318, 0x6f0725c00ee24729, 0xaba25bd135b5ed0d, 0x1f61928fa6657898, 0xd7ab04ee53f3b3ba), 7, 0x87);
    Next(Words(0x7ac71b4e596d4318, 0x6f0725c00ee24729, 0xaba25bd135b5ed0d, 0x1f61928fa6657898, 0xd7ab04ee53f3b3ba),
         Words(0xb2470aaa0450b49e, 0x6ab6759c85b02264, 0x01d7855fe5f3569b, 0x575664f3e9a6a82a, 0xcd24de2ba7d04568), 8, 0x78);
  }

  lemma HashaFourth()
    ensures Rounds(Words(0xb2470aaa0450b49e, 0x6ab6759c85b02264, 0x01d7855fe5f3569b, 0x575664f3e9a6a82a, 0xcd24de2ba7d04568), 9)
         == Rounds(Words(0x01470194fc6528a6, 0x738ec38ac0adffa7, 0x2ec8e3296c76384c, 0xd6f6a54d7f52377d, 0xa13c42a223be8d87), 12)
  {
    hide Rounds;
    Constants();
    Next(Words(0xb2470aaa0450b49e, 0x6ab6759c85b02264, 0x01d7855fe5f3569b, 0x575664f3e9a6a82a, 0xcd24de2ba7d04568),
         Words(0xd5d4b1f05c296b7e, 0xd90ca006e16e7222, 0x369325fa077d1a05, 0x4786672085629330, 0xfdf67584639f11d1), 9, 0x69);
    Next(Words(0xd5d4b1f05c296b7e, 0xd90ca006e16e7222, 0x369325fa077d1a05, 0x4786672085629330, 0xfdf67584639f11d1),
         Words(0xcae09ea5fda88150, 0x7fe64cfbb54a7751, 0x72b81e6edb249abf, 0xb12e24f001ecb455, 0xfab990021a4d57fd), 10, 0x5A);
    Next(Words(0xcae09ea5fda88150, 0x7fe64cfbb54a7751, 0x72b81e6edb249abf, 0xb12e24f001ecb455, 0xfab990021a4d57fd),
         Words(0x01470194fc6528a6, 0x738ec38ac0adffa7, 0x2ec8e3296c76384c, 0xd6f6a54d7f52377d, 0xa13c42a223be8d87), 11, 0x4B);
  }

  lemma HashaTable()
    ensures Rounds(Words(0x00400c0400000100, 0, 0, 0, 0), 0) == HASHA_TABLE
  {
    hide Rounds;
    HashaFirst();
    HashaSecond();
    HashaThird();
    HashaFourth();
    NoMoreRounds(HASHA_TABLE);
  }
}
