// Lookup tables of components/utils/ln_aes.c, entry for entry. Each table is written as a decision tree
// over the eight bits of the index, so that facts about all 256 entries are decided bit by bit.
module AesTables {
  // g_sbox, ln_aes.c:164
  function Sbox(x: bv8): bv8 {
    var z0 := x & 0x01 == 0;
    var z1 := x & 0x02 == 0;
    var z2 := x & 0x04 == 0;
    var z3 := x & 0x08 == 0;
    var z4 := x & 0x10 == 0;
    var z5 := x & 0x20 == 0;
    var z6 := x & 0x40 == 0;
    var z7 := x & 0x80 == 0;
    if z7 then
      if z6 then
        if z5 then
          if z4 then
            if z3 then
              if z2 then if z1 then (if z0 then 0x63 else 0x7C) else (if z0 then 0x77 else 0x7B)
              else if z1 then (if z0 then 0xF2 else 0x6B) else (if z0 then 0x6F else 0xC5)
            else
              if z2 then if z1 then (if z0 then 0x30 else 0x01) else (if z0 then 0x67 else 0x2B)
              else if z1 then (if z0 then 0xFE else 0xD7) else (if z0 then 0xAB else 0x76)
          else
            if z3 then
              if z2 then if z1 then (if z0 then 0xCA else 0x82) else (if z0 then 0xC9 else 0x7D)
              else if z1 then (if z0 then 0xFA else 0x59) else (if z0 then 0x47 else 0xF0)
            else
              if z2 then if z1 then (if z0 then 0xAD else 0xD4) else (if z0 then 0xA2 else 0xAF)
              else if z1 then (if z0 then 0x9C else 0xA4) else (if z0 then 0x72 else 0xC0)
        else
          if z4 then
            if z3 then
              if z2 then if z1 then (if z0 then 0xB7 else 0xFD) else (if z0 then 0x93 else 0x26)
              else if z1 then (if z0 then 0x36 else 0x3F) else (if z0 then 0xF7 else 0xCC)
            else
              if z2 then if z1 then (if z0 then 0x34 else 0xA5) else (if z0 then 0xE5 else 0xF1)
              else if z1 then (if z0 then 0x71 else 0xD8) else (if z0 then 0x31 else 0x15)
          else
            if z3 then
              if z2 then if z1 then (if z0 then 0x04 else 0xC7) else (if z0 then 0x23 else 0xC3)
              else if z1 then (if z0 then 0x18 else 0x96) else (if z0 then 0x05 else 0x9A)
            else
              if z2 then if z1 then (if z0 then 0x07 else 0x12) else (if z0 then 0x80 else 0xE2)
              else if z1 then (if z0 then 0xEB else 0x27) else (if z0 then 0xB2 else 0x75)
      else
        if z5 then
          if z4 then
            if z3 then
              if z2 then if z1 then (if z0 then 0x09 else 0x83) else (if z0 then 0x2C else 0x1A)
              else if z1 then (if z0 then 0x1B else 0x6E) else (if z0 then 0x5A else 0xA0)
            else
              if z2 then if z1 then (if z0 then 0x52 else 0x3B) else (if z0 then 0xD6 else 0xB3)
              else if z1 then (if z0 then 0x29 else 0xE3) else (if z0 then 0x2F else 0x84)
          else
            if z3 then
              if z2 then if z1 then (if z0 then 0x53 else 0xD1) else (if z0 then 0x00 else 0xED)
              else if z1 then (if z0 then 0x20 else 0xFC) else (if z0 then 0xB1 else 0x5B)
            else
              if z2 then if z1 then (if z0 then 0x6A else 0xCB) else (if z0 then 0xBE else 0x39)
              else if z1 then (if z0 then 0x4A else 0x4C) else (if z0 then 0x58 else 0xCF)
        else
          if z4 then
            if z3 then
              if z2 then if z1 then (if z0 then 0xD0 else 0xEF) else (if z0 then 0xAA else 0xFB)
              else if z1 then (if z0 then 0x43 else 0x4D) else (if z0 then 0x33 else 0x85)
            else
              if z2 then if z1 then (if z0 then 0x45 else 0xF9) else (if z0 then 0x02 else 0x7F)
              else if z1 then (if z0 then 0x50 else 0x3C) else (if z0 then 0x9F else 0xA8)
          else
            if z3 then
              if z2 then if z1 then (if z0 then 0x51 else 0xA3) else (if z0 then 0x40 else 0x8F)
              else if z1 then (if z0 then 0x92 else 0x9D) else (if z0 then 0x38 else 0xF5)
            else
              if z2 then if z1 then (if z0 then 0xBC else 0xB6) else (if z0 then 0xDA else 0x21)
              else if z1 then (if z0 then 0x10 else 0xFF) else (if z0 then 0xF3 else 0xD2)
    else
      if z6 then
        if z5 then
          if z4 then
            if z3 then
              if z2 then if z1 then (if z0 then 0xCD else 0x0C) else (if z0 then 0x13 else 0xEC)
              else if z1 then (if z0 then 0x5F else 0x97) else (if z0 then 0x44 else 0x17)
            else
              if z2 then if z1 then (if z0 then 0xC4 else 0xA7) else (if z0 then 0x7E else 0x3D)
              else if z1 then (if z0 then 0x64 else 0x5D) else (if z0 then 0x19 else 0x73)
          else
            if z3 then
              if z2 then if z1 then (if z0 then 0x60 else 0x81) else (if z0 then 0x4F else 0xDC)
              else if z1 then (if z0 then 0x22 else 0x2A) else (if z0 then 0x90 else 0x88)
            else
              if z2 then if z1 then (if z0 then 0x46 else 0xEE) else (if z0 then 0xB8 else 0x14)
              else if z1 then (if z0 then 0xDE else 0x5E) else (if z0 then 0x0B else 0xDB)
        else
          if z4 then
            if z3 then
              if z2 then if z1 then (if z0 then 0xE0 else 0x32) else (if z0 then 0x3A else 0x0A)
              else if z1 then (if z0 then 0x49 else 0x06) else (if z0 then 0x24 else 0x5C)
            else
              if z2 then if z1 then (if z0 then 0xC2 else 0xD3) else (if z0 then 0xAC else 0x62)
              else if z1 then (if z0 then 0x91 else 0x95) else (if z0 then 0xE4 else 0x79)
          else
            if z3 then
              if z2 then if z1 then (if z0 then 0xE7 else 0xC8) else (if z0 then 0x37 else 0x6D)
              else if z1 then (if z0 then 0x8D else 0xD5) else (if z0 then 0x4E else 0xA9)
            else
              if z2 then if z1 then (if z0 then 0x6C else 0x56) else (if z0 then 0xF4 else 0xEA)
              else if z1 then (if z0 then 0x65 else 0x7A) else (if z0 then 0xAE else 0x08)
      else
        if z5 then
          if z4 then
            if z3 then
              if z2 then if z1 then (if z0 then 0xBA else 0x78) else (if z0 then 0x25 else 0x2E)
              else if z1 then (if z0 then 0x1C else 0xA6) else (if z0 then 0xB4 else 0xC6)
            else
              if z2 then if z1 then (if z0 then 0xE8 else 0xDD) else (if z0 then 0x74 else 0x1F)
              else if z1 then (if z0 then 0x4B else 0xBD) else (if z0 then 0x8B else 0x8A)
          else
            if z3 then
              if z2 then if z1 then (if z0 then 0x70 else 0x3E) else (if z0 then 0xB5 else 0x66)
              else if z1 then (if z0 then 0x48 else 0x03) else (if z0 then 0xF6 else 0x0E)
            else
              if z2 then if z1 then (if z0 then 0x61 else 0x35) else (if z0 then 0x57 else 0xB9)
              else if z1 then (if z0 then 0x86 else 0xC1) else (if z0 then 0x1D else 0x9E)
        else
          if z4 then
            if z3 then
              if z2 then if z1 then (if z0 then 0xE1 else 0xF8) else (if z0 then 0x98 else 0x11)
              else if z1 then (if z0 then 0x69 else 0xD9) else (if z0 then 0x8E else 0x94)
            else
              if z2 then if z1 then (if z0 then 0x9B else 0x1E) else (if z0 then 0x87 else 0xE9)
              else if z1 then (if z0 then 0xCE else 0x55) else (if z0 then 0x28 else 0xDF)
          else
            if z3 then
              if z2 then if z1 then (if z0 then 0x8C else 0xA1) else (if z0 then 0x89 else 0x0D)
              else if z1 then (if z0 then 0xBF else 0xE6) else (if z0 then 0x42 else 0x68)
            else
              if z2 then if z1 then (if z0 then 0x41 else 0x99) else (if z0 then 0x2D else 0x0F)
              else if z1 then (if z0 then 0xB0 else 0x54) else (if z0 then 0xBB else 0x16)
  }

  // g_isbox, ln_aes.c:185
  function InvSbox(x: bv8): bv8 {
    var z0 := x & 0x01 == 0;
    var z1 := x & 0x02 == 0;
    var z2 := x & 0x04 == 0;
    var z3 := x & 0x08 == 0;
    var z4 := x & 0x10 == 0;
    var z5 := x & 0x20 == 0;
    var z6 := x & 0x40 == 0;
    var z7 := x & 0x80 == 0;
    if z7 then
      if z6 then
        if z5 then
          if z4 then
            if z3 then
              if z2 then if z1 then (if z0 then 0x52 else 0x09) else (if z0 then 0x6A else 0xD5)
              else if z1 then (if z0 then 0x30 else 0x36) else (if z0 then 0xA5 else 0x38)
            else
              if z2 then if z1 then (if z0 then 0xBF else 0x40) else (if z0 then 0xA3 else 0x9E)
              else if z1 then (if z0 then 0x81 else 0xF3) else (if z0 then 0xD7 else 0xFB)
          else
            if z3 then
              if z2 then if z1 then (if z0 then 0x7C else 0xE3) else (if z0 then 0x39 else 0x82)
              else if z1 then (if z0 then 0x9B else 0x2F) else (if z0 then 0xFF else 0x87)
            else
              if z2 then if z1 then (if z0 then 0x34 else 0x8E) else (if z0 then 0x43 else 0x44)
              else if z1 then (if z0 then 0xC4 else 0xDE) else (if z0 then 0xE9 else 0xCB)
        else
          if z4 then
            if z3 then
              if z2 then if z1 then (if z0 then 0x54 else 0x7B) else (if z0 then 0x94 else 0x32)
              else if z1 then (if z0 then 0xA6 else 0xC2) else (if z0 then 0x23 else 0x3D)
            else
              if z2 then if z1 then (if z0 then 0xEE else 0x4C) else (if z0 then 0x95 else 0x0B)
              else if z1 then (if z0 then 0x42 else 0xFA) else (if z0 then 0xC3 else 0x4E)
          else
            if z3 then
              if z2 then if z1 then (if z0 then 0x08 else 0x2E) else (if z0 then 0xA1 else 0x66)
              else if z1 then (if z0 then 0x28 else 0xD9) else (if z0 then 0x24 else 0xB2)
            else
              if z2 then if z1 then (if z0 then 0x76 else 0x5B) else (if z0 then 0xA2 else 0x49)
              else if z1 then (if z0 then 0x6D else 0x8B) else (if z0 then 0xD1 else 0x25)
      else
        if z5 then
          if z4 then
            if z3 then
              if z2 then if z1 then (if z0 then 0x72 else 0xF8) else (if z0 then 0xF6 else 0x64)
              else if z1 then (if z0 then 0x86 else 0x68) else (if z0 then 0x98 else 0x16)
            else
              if z2 then if z1 then (if z0 then 0xD4 else 0xA4) else (if z0 then 0x5C else 0xCC)
              else if z1 then (if z0 then 0x5D else 0x65) else (if z0 then 0xB6 else 0x92)
          else
            if z3 then
              if z2 then if z1 then (if z0 then 0x6C else 0x70) else (if z0 then 0x48 else 0x50)
              else if z1 then (if z0 then 0xFD else 0xED) else (if z0 then 0xB9 else 0xDA)
            else
              if z2 then if z1 then (if z0 then 0x5E else 0x15) else (if z0 then 0x46 else 0x57)
              else if z1 then (if z0 then 0xA7 else 0x8D) else (if z0 then 0x9D else 0x84)
        else
          if z4 then
            if z3 then
              if z2 then if z1 then (if z0 then 0x90 else 0xD8) else (if z0 then 0xAB else 0x00)
              else if z1 then (if z0 then 0x8C else 0xBC) else (if z0 then 0xD3 else 0x0A)
            else
              if z2 then if z1 then (if z0 then 0xF7 else 0xE4) else (if z0 then 0x58 else 0x05)
              else if z1 then (if z0 then 0xB8 else 0xB3) else (if z0 then 0x45 else 0x06)
          else
            if z3 then
              if z2 then if z1 then (if z0 then 0xD0 else 0x2C) else (if z0 then 0x1E else 0x8F)
              else if z1 then (if z0 then 0xCA else 0x3F) else (if z0 then 0x0F else 0x02)
            else
              if z2 then if z1 then (if z0 then 0xC1 else 0xAF) else (if z0 then 0xBD else 0x03)
              else if z1 then (if z0 then 0x01 else 0x13) else (if z0 then 0x8A else 0x6B)
    else
      if z6 then
        if z5 then
          if z4 then
            if z3 then
              if z2 then if z1 then (if z0 then 0x3A else 0x91) else (if z0 then 0x11 else 0x41)
              else if z1 then (if z0 then 0x4F else 0x67) else (if z0 then 0xDC else 0xEA)
            else
              if z2 then if z1 then (if z0 then 0x97 else 0xF2) else (if z0 then 0xCF else 0xCE)
              else if z1 then (if z0 then 0xF0 else 0xB4) else (if z0 then 0xE6 else 0x73)
          else
            if z3 then
              if z2 then if z1 then (if z0 then 0x96 else 0xAC) else (if z0 then 0x74 else 0x22)
              else if z1 then (if z0 then 0xE7 else 0xAD) else (if z0 then 0x35 else 0x85)
            else
              if z2 then if z1 then (if z0 then 0xE2 else 0xF9) else (if z0 then 0x37 else 0xE8)
              else if z1 then (if z0 then 0x1C else 0x75) else (if z0 then 0xDF else 0x6E)
        else
          if z4 then
            if z3 then
              if z2 then if z1 then (if z0 then 0x47 else 0xF1) else (if z0 then 0x1A else 0x71)
              else if z1 then (if z0 then 0x1D else 0x29) else (if z0 then 0xC5 else 0x89)
            else
              if z2 then if z1 then (if z0 then 0x6F else 0xB7) else (if z0 then 0x62 else 0x0E)
              else if z1 then (if z0 then 0xAA else 0x18) else (if z0 then 0xBE else 0x1B)
          else
            if z3 then
              if z2 then if z1 then (if z0 then 0xFC else 0x56) else (if z0 then 0x3E else 0x4B)
              else if z1 then (if z0 then 0xC6 else 0xD2) else (if z0 then 0x79 else 0x20)
            else
              if z2 then if z1 then (if z0 then 0x9A else 0xDB) else (if z0 then 0xC0 else 0xFE)
              else if z1 then (if z0 then 0x78 else 0xCD) else (if z0 then 0x5A else 0xF4)
      else
        if z5 then
          if z4 then
            if z3 then
              if z2 then if z1 then (if z0 then 0x1F else 0xDD) else (if z0 then 0xA8 else 0x33)
              else if z1 then (if z0 then 0x88 else 0x07) else (if z0 then 0xC7 else 0x31)
            else
              if z2 then if z1 then (if z0 then 0xB1 else 0x12) else (if z0 then 0x10 else 0x59)
              else if z1 then (if z0 then 0x27 else 0x80) else (if z0 then 0xEC else 0x5F)
          else
            if z3 then
              if z2 then if z1 then (if z0 then 0x60 else 0x51) else (if z0 then 0x7F else 0xA9)
              else if z1 then (if z0 then 0x19 else 0xB5) else (if z0 then 0x4A else 0x0D)
            else
              if z2 then if z1 then (if z0 then 0x2D else 0xE5) else (if z0 then 0x7A else 0x9F)
              else if z1 then (if z0 then 0x93 else 0xC9) else (if z0 then 0x9C else 0xEF)
        else
          if z4 then
            if z3 then
              if z2 then if z1 then (if z0 then 0xA0 else 0xE0) else (if z0 then 0x3B else 0x4D)
              else if z1 then (if z0 then 0xAE else 0x2A) else (if z0 then 0xF5 else 0xB0)
            else
              if z2 then if z1 then (if z0 then 0xC8 else 0xEB) else (if z0 then 0xBB else 0x3C)
              else if z1 then (if z0 then 0x83 else 0x53) else (if z0 then 0x99 else 0x61)
          else
            if z3 then
              if z2 then if z1 then (if z0 then 0x17 else 0x2B) else (if z0 then 0x04 else 0x7E)
              else if z1 then (if z0 then 0xBA else 0x77) else (if z0 then 0xD6 else 0x26)
            else
              if z2 then if z1 then (if z0 then 0xE1 else 0x69) else (if z0 then 0x14 else 0x63)
              else if z1 then (if z0 then 0x55 else 0x21) else (if z0 then 0x0C else 0x7D)
  }

  // g_dtbl, ln_aes.c:28
  function EncTable(x: bv8): bv32 {
    var z0 := x & 0x01 == 0;
    var z1 := x & 0x02 == 0;
    var z2 := x & 0x04 == 0;
    var z3 := x & 0x08 == 0;
    var z4 := x & 0x10 == 0;
    var z5 := x & 0x20 == 0;
    var z6 := x & 0x40 == 0;
    var z7 := x & 0x80 == 0;
    if z7 then
      if z6 then
        if z5 then
          if z4 then
            if z3 then
              if z2 then if z1 then (if z0 then 0xA56363C6 else 0x847C7CF8) else (if z0 then 0x997777EE else 0x8D7B7BF6)
              else if z1 then (if z0 then 0x0DF2F2FF else 0xBD6B6BD6) else (if z0 then 0xB16F6FDE else 0x54C5C591)
            else
              if z2 then if z1 then (if z0 then 0x50303060 else 0x03010102) else (if z0 then 0xA96767CE else 0x7D2B2B56)
              else if z1 then (if z0 then 0x19FEFEE7 else 0x62D7D7B5) else (if z0 then 0xE6ABAB4D else 0x9A7676EC)
          else
            if z3 then
              if z2 then if z1 then (if z0 then 0x45CACA8F else 0x9D82821F) else (if z0 then 0x40C9C989 else 0x877D7DFA)
              else if z1 then (if z0 then 0x15FAFAEF else 0xEB5959B2) else (if z0 then 0xC947478E else 0x0BF0F0FB)
            else
              if z2 then if z1 then (if z0 then 0xECADAD41 else 0x67D4D4B3) else (if z0 then 0xFDA2A25F else 0xEAAFAF45)
              else if z1 then (if z0 then 0xBF9C9C23 else 0xF7A4A453) else (if z0 then 0x967272E4 else 0x5BC0C09B)
        else
          if z4 then
            if z3 then
              if z2 then if z1 then (if z0 then 0xC2B7B775 else 0x1CFDFDE1) else (if z0 then 0xAE93933D else 0x6A26264C)
              else if z1 then (if z0 then 0x5A36366C else 0x413F3F7E) else (if z0 then 0x02F7F7F5 else 0x4FCCCC83)
            else
              if z2 then if z1 then (if z0 then 0x5C343468 else 0xF4A5A551) else (if z0 then 0x34E5E5D1 else 0x08F1F1F9)
              else if z1 then (if z0 then 0x937171E2 else 0x73D8D8AB) else (if z0 then 0x53313162 else 0x3F15152A)
          else
            if z3 then
              if z2 then if z1 then (if z0 then 0x0C040408 else 0x52C7C795) else (if z0 then 0x65232346 else 0x5EC3C39D)
              else if z1 then (if z0 then 0x28181830 else 0xA1969637) else (if z0 then 0x0F05050A else 0xB59A9A2F)
            else
              if z2 then if z1 then (if z0 then 0x0907070E else 0x36121224) else (if z0 then 0x9B80801B else 0x3DE2E2DF)
              else if z1 then (if z0 then 0x26EBEBCD else 0x6927274E) else (if z0 then 0xCDB2B27F else 0x9F7575EA)
      else
        if z5 then
          if z4 then
            if z3 then
              if z2 then if z1 then (if z0 then 0x1B090912 else 0x9E83831D) else (if z0 then 0x742C2C58 else 0x2E1A1A34)
              else if z1 then (if z0 then 0x2D1B1B36 else 0xB26E6EDC) else (if z0 then 0xEE5A5AB4 else 0xFBA0A05B)
            else
              if z2 then if z1 then (if z0 then 0xF65252A4 else 0x4D3B3B76) else (if z0 then 0x61D6D6B7 else 0xCEB3B37D)
              else if z1 then (if z0 then 0x7B292952 else 0x3EE3E3DD) else (if z0 then 0x712F2F5E else 0x97848413)
          else
            if z3 then
              if z2 then if z1 then (if z0 then 0xF55353A6 else 0x68D1D1B9) else (if z0 then 0x00000000 else 0x2CEDEDC1)
              else if z1 then (if z0 then 0x60202040 else 0x1FFCFCE3) else (if z0 then 0xC8B1B179 else 0xED5B5BB6)
            else
              if z2 then if z1 then (if z0 then 0xBE6A6AD4 else 0x46CBCB8D) else (if z0 then 0xD9BEBE67 else 0x4B393972)
              else if z1 then (if z0 then 0xDE4A4A94 else 0xD44C4C98) else (if z0 then 0xE85858B0 else 0x4ACFCF85)
        else
          if z4 then
            if z3 then
              if z2 then if z1 then (if z0 then 0x6BD0D0BB else 0x2AEFEFC5) else (if z0 then 0xE5AAAA4F else 0x16FBFBED)
              else if z1 then (if z0 then 0xC5434386 else 0xD74D4D9A) else (if z0 then 0x55333366 else 0x94858511)
            else
              if z2 then if z1 then (if z0 then 0xCF45458A else 0x10F9F9E9) else (if z0 then 0x06020204 else 0x817F7FFE)
              else if z1 then (if z0 then 0xF05050A0 else 0x443C3C78) else (if z0 then 0xBA9F9F25 else 0xE3A8A84B)
          else
            if z3 then
              if z2 then if z1 then (if z0 then 0xF35151A2 else 0xFEA3A35D) else (if z0 then 0xC0404080 else 0x8A8F8F05)
              else if z1 then (if z0 then 0xAD92923F else 0xBC9D9D21) else (if z0 then 0x48383870 else 0x04F5F5F1)
            else
              if z2 then if z1 then (if z0 then 0xDFBCBC63 else 0xC1B6B677) else (if z0 then 0x75DADAAF else 0x63212142)
              else if z1 then (if z0 then 0x30101020 else 0x1AFFFFE5) else (if z0 then 0x0EF3F3FD else 0x6DD2D2BF)
    else
      if z6 then
        if z5 then
          if z4 then
            if z3 then
              if z2 then if z1 then (if z0 then 0x4CCDCD81 else 0x140C0C18) else (if z0 then 0x35131326 else 0x2FECECC3)
              else if z1 then (if z0 then 0xE15F5FBE else 0xA2979735) else (if z0 then 0xCC444488 else 0x3917172E)
            else
              if z2 then if z1 then (if z0 then 0x57C4C493 else 0xF2A7A755) else (if z0 then 0x827E7EFC else 0x473D3D7A)
              else if z1 then (if z0 then 0xAC6464C8 else 0xE75D5DBA) else (if z0 then 0x2B191932 else 0x957373E6)
          else
            if z3 then
              if z2 then if z1 then (if z0 then 0xA06060C0 else 0x98818119) else (if z0 then 0xD14F4F9E else 0x7FDCDCA3)
              else if z1 then (if z0 then 0x66222244 else 0x7E2A2A54) else (if z0 then 0xAB90903B else 0x8388880B)
            else
              if z2 then if z1 then (if z0 then 0xCA46468C else 0x29EEEEC7) else (if z0 then 0xD3B8B86B else 0x3C141428)
              else if z1 then (if z0 then 0x79DEDEA7 else 0xE25E5EBC) else (if z0 then 0x1D0B0B16 else 0x76DBDBAD)
        else
          if z4 then
            if z3 then
              if z2 then if z1 then (if z0 then 0x3BE0E0DB else 0x56323264) else (if z0 then 0x4E3A3A74 else 0x1E0A0A14)
              else if z1 then (if z0 then 0xDB494992 else 0x0A06060C) else (if z0 then 0x6C242448 else 0xE45C5CB8)
            else
              if z2 then if z1 then (if z0 then 0x5DC2C29F else 0x6ED3D3BD) else (if z0 then 0xEFACAC43 else 0xA66262C4)
              else if z1 then (if z0 then 0xA8919139 else 0xA4959531) else (if z0 then 0x37E4E4D3 else 0x8B7979F2)
          else
            if z3 then
              if z2 then if z1 then (if z0 then 0x32E7E7D5 else 0x43C8C88B) else (if z0 then 0x5937376E else 0xB76D6DDA)
              else if z1 then (if z0 then 0x8C8D8D01 else 0x64D5D5B1) else (if z0 then 0xD24E4E9C else 0xE0A9A949)
            else
              if z2 then if z1 then (if z0 then 0xB46C6CD8 else 0xFA5656AC) else (if z0 then 0x07F4F4F3 else 0x25EAEACF)
              else if z1 then (if z0 then 0xAF6565CA else 0x8E7A7AF4) else (if z0 then 0xE9AEAE47 else 0x18080810)
      else
        if z5 then
          if z4 then
            if z3 then
              if z2 then if z1 then (if z0 then 0xD5BABA6F else 0x887878F0) else (if z0 then 0x6F25254A else 0x722E2E5C)
              else if z1 then (if z0 then 0x241C1C38 else 0xF1A6A657) else (if z0 then 0xC7B4B473 else 0x51C6C697)
            else
              if z2 then if z1 then (if z0 then 0x23E8E8CB else 0x7CDDDDA1) else (if z0 then 0x9C7474E8 else 0x211F1F3E)
              else if z1 then (if z0 then 0xDD4B4B96 else 0xDCBDBD61) else (if z0 then 0x868B8B0D else 0x858A8A0F)
          else
            if z3 then
              if z2 then if z1 then (if z0 then 0x907070E0 else 0x423E3E7C) else (if z0 then 0xC4B5B571 else 0xAA6666CC)
              else if z1 then (if z0 then 0xD8484890 else 0x05030306) else (if z0 then 0x01F6F6F7 else 0x120E0E1C)
            else
              if z2 then if z1 then (if z0 then 0xA36161C2 else 0x5F35356A) else (if z0 then 0xF95757AE else 0xD0B9B969)
              else if z1 then (if z0 then 0x91868617 else 0x58C1C199) else (if z0 then 0x271D1D3A else 0xB99E9E27)
        else
          if z4 then
            if z3 then
              if z2 then if z1 then (if z0 then 0x38E1E1D9 else 0x13F8F8EB) else (if z0 then 0xB398982B else 0x33111122)
              else if z1 then (if z0 then 0xBB6969D2 else 0x70D9D9A9) else (if z0 then 0x898E8E07 else 0xA7949433)
            else
              if z2 then if z1 then (if z0 then 0xB69B9B2D else 0x221E1E3C) else (if z0 then 0x92878715 else 0x20E9E9C9)
              else if z1 then (if z0 then 0x49CECE87 else 0xFF5555AA) else (if z0 then 0x78282850 else 0x7ADFDFA5)
          else
            if z3 then
              if z2 then if z1 then (if z0 then 0x8F8C8C03 else 0xF8A1A159) else (if z0 then 0x80898909 else 0x170D0D1A)
              else if z1 then (if z0 then 0xDABFBF65 else 0x31E6E6D7) else (if z0 then 0xC6424284 else 0xB86868D0)
            else
              if z2 then if z1 then (if z0 then 0xC3414182 else 0xB0999929) else (if z0 then 0x772D2D5A else 0x110F0F1E)
              else if z1 then (if z0 then 0xCBB0B07B else 0xFC5454A8) else (if z0 then 0xD6BBBB6D else 0x3A16162C)
  }

  // g_itbl, ln_aes.c:95
  function DecTable(x: bv8): bv32 {
    var z0 := x & 0x01 == 0;
    var z1 := x & 0x02 == 0;
    var z2 := x & 0x04 == 0;
    var z3 := x & 0x08 == 0;
    var z4 := x & 0x10 == 0;
    var z5 := x & 0x20 == 0;
    var z6 := x & 0x40 == 0;
    var z7 := x & 0x80 == 0;
    if z7 then
      if z6 then
        if z5 then
          if z4 then
            if z3 then
              if z2 then if z1 then (if z0 then 0x50A7F451 else 0x5365417E) else (if z0 then 0xC3A4171A else 0x965E273A)
              else if z1 then (if z0 then 0xCB6BAB3B else 0xF1459D1F) else (if z0 then 0xAB58FAAC else 0x9303E34B)
            else
              if z2 then if z1 then (if z0 then 0x55FA3020 else 0xF66D76AD) else (if z0 then 0x9176CC88 else 0x254C02F5)
              else if z1 then (if z0 then 0xFCD7E54F else 0xD7CB2AC5) else (if z0 then 0x80443526 else 0x8FA362B5)
          else
            if z3 then
              if z2 then if z1 then (if z0 then 0x495AB1DE else 0x671BBA25) else (if z0 then 0x980EEA45 else 0xE1C0FE5D)
              else if z1 then (if z0 then 0x02752FC3 else 0x12F04C81) else (if z0 then 0xA397468D else 0xC6F9D36B)
            else
              if z2 then if z1 then (if z0 then 0xE75F8F03 else 0x959C9215) else (if z0 then 0xEB7A6DBF else 0xDA595295)
              else if z1 then (if z0 then 0x2D83BED4 else 0xD3217458) else (if z0 then 0x2969E049 else 0x44C8C98E)
        else
          if z4 then
            if z3 then
              if z2 then if z1 then (if z0 then 0x6A89C275 else 0x78798EF4) else (if z0 then 0x6B3E5899 else 0xDD71B927)
              else if z1 then (if z0 then 0xB64FE1BE else 0x17AD88F0) else (if z0 then 0x66AC20C9 else 0xB43ACE7D)
            else
              if z2 then if z1 then (if z0 then 0x184ADF63 else 0x82311AE5) else (if z0 then 0x60335197 else 0x457F5362)
              else if z1 then (if z0 then 0xE07764B1 else 0x84AE6BBB) else (if z0 then 0x1CA081FE else 0x942B08F9)
          else
            if z3 then
              if z2 then if z1 then (if z0 then 0x58684870 else 0x19FD458F) else (if z0 then 0x876CDE94 else 0xB7F87B52)
              else if z1 then (if z0 then 0x23D373AB else 0xE2024B72) else (if z0 then 0x578F1FE3 else 0x2AAB5566)
            else
              if z2 then if z1 then (if z0 then 0x0728EBB2 else 0x03C2B52F) else (if z0 then 0x9A7BC586 else 0xA50837D3)
              else if z1 then (if z0 then 0xF2872830 else 0xB2A5BF23) else (if z0 then 0xBA6A0302 else 0x5C8216ED)
      else
        if z5 then
          if z4 then
            if z3 then
              if z2 then if z1 then (if z0 then 0x2B1CCF8A else 0x92B479A7) else (if z0 then 0xF0F207F3 else 0xA1E2694E)
              else if z1 then (if z0 then 0xCDF4DA65 else 0xD5BE0506) else (if z0 then 0x1F6234D1 else 0x8AFEA6C4)
            else
              if z2 then if z1 then (if z0 then 0x9D532E34 else 0xA055F3A2) else (if z0 then 0x32E18A05 else 0x75EBF6A4)
              else if z1 then (if z0 then 0x39EC830B else 0xAAEF6040) else (if z0 then 0x069F715E else 0x51106EBD)
          else
            if z3 then
              if z2 then if z1 then (if z0 then 0xF98A213E else 0x3D06DD96) else (if z0 then 0xAE053EDD else 0x46BDE64D)
              else if z1 then (if z0 then 0xB58D5491 else 0x055DC471) else (if z0 then 0x6FD40604 else 0xFF155060)
            else
              if z2 then if z1 then (if z0 then 0x24FB9819 else 0x97E9BDD6) else (if z0 then 0xCC434089 else 0x779ED967)
              else if z1 then (if z0 then 0xBD42E8B0 else 0x888B8907) else (if z0 then 0x385B19E7 else 0xDBEEC879)
        else
          if z4 then
            if z3 then
              if z2 then if z1 then (if z0 then 0x470A7CA1 else 0xE90F427C) else (if z0 then 0xC91E84F8 else 0x00000000)
              else if z1 then (if z0 then 0x83868009 else 0x48ED2B32) else (if z0 then 0xAC70111E else 0x4E725A6C)
            else
              if z2 then if z1 then (if z0 then 0xFBFF0EFD else 0x5638850F) else (if z0 then 0x1ED5AE3D else 0x27392D36)
              else if z1 then (if z0 then 0x64D90F0A else 0x21A65C68) else (if z0 then 0xD1545B9B else 0x3A2E3624)
          else
            if z3 then
              if z2 then if z1 then (if z0 then 0xB1670A0C else 0x0FE75793) else (if z0 then 0xD296EEB4 else 0x9E919B1B)
              else if z1 then (if z0 then 0x4FC5C080 else 0xA220DC61) else (if z0 then 0x694B775A else 0x161A121C)
            else
              if z2 then if z1 then (if z0 then 0x0ABA93E2 else 0xE52AA0C0) else (if z0 then 0x43E0223C else 0x1D171B12)
              else if z1 then (if z0 then 0x0B0D090E else 0xADC78BF2) else (if z0 then 0xB9A8B62D else 0xC8A91E14)
    else
      if z6 then
        if z5 then
          if z4 then
            if z3 then
              if z2 then if z1 then (if z0 then 0x8519F157 else 0x4C0775AF) else (if z0 then 0xBBDD99EE else 0xFD607FA3)
              else if z1 then (if z0 then 0x9F2601F7 else 0xBCF5725C) else (if z0 then 0xC53B6644 else 0x347EFB5B)
            else
              if z2 then if z1 then (if z0 then 0x7629438B else 0xDCC623CB) else (if z0 then 0x68FCEDB6 else 0x63F1E4B8)
              else if z1 then (if z0 then 0xCADC31D7 else 0x10856342) else (if z0 then 0x40229713 else 0x2011C684)
          else
            if z3 then
              if z2 then if z1 then (if z0 then 0x7D244A85 else 0xF83DBBD2) else (if z0 then 0x1132F9AE else 0x6DA129C7)
              else if z1 then (if z0 then 0x4B2F9E1D else 0xF330B2DC) else (if z0 then 0xEC52860D else 0xD0E3C177)
            else
              if z2 then if z1 then (if z0 then 0x6C16B32B else 0x99B970A9) else (if z0 then 0xFA489411 else 0x2264E947)
              else if z1 then (if z0 then 0xC48CFCA8 else 0x1A3FF0A0) else (if z0 then 0xD82C7D56 else 0xEF903322)
        else
          if z4 then
            if z3 then
              if z2 then if z1 then (if z0 then 0xC74E4987 else 0xC1D138D9) else (if z0 then 0xFEA2CA8C else 0x360BD498)
              else if z1 then (if z0 then 0xCF81F5A6 else 0x28DE7AA5) else (if z0 then 0x268EB7DA else 0xA4BFAD3F)
            else
              if z2 then if z1 then (if z0 then 0xE49D3A2C else 0x0D927850) else (if z0 then 0x9BCC5F6A else 0x62467E54)
              else if z1 then (if z0 then 0xC2138DF6 else 0xE8B8D890) else (if z0 then 0x5EF7392E else 0xF5AFC382)
          else
            if z3 then
              if z2 then if z1 then (if z0 then 0xBE805D9F else 0x7C93D069) else (if z0 then 0xA92DD56F else 0xB31225CF)
              else if z1 then (if z0 then 0x3B99ACC8 else 0xA77D1810) else (if z0 then 0x6E639CE8 else 0x7BBB3BDB)
            else
              if z2 then if z1 then (if z0 then 0x097826CD else 0xF418596E) else (if z0 then 0x01B79AEC else 0xA89A4F83)
              else if z1 then (if z0 then 0x656E95E6 else 0x7EE6FFAA) else (if z0 then 0x08CFBC21 else 0xE6E815EF)
      else
        if z5 then
          if z4 then
            if z3 then
              if z2 then if z1 then (if z0 then 0xD99BE7BA else 0xCE366F4A) else (if z0 then 0xD4099FEA else 0xD67CB029)
              else if z1 then (if z0 then 0xAFB2A431 else 0x31233F2A) else (if z0 then 0x3094A5C6 else 0xC066A235)
            else
              if z2 then if z1 then (if z0 then 0x37BC4E74 else 0xA6CA82FC) else (if z0 then 0xB0D090E0 else 0x15D8A733)
              else if z1 then (if z0 then 0x4A9804F1 else 0xF7DAEC41) else (if z0 then 0x0E50CD7F else 0x2FF69117)
          else
            if z3 then
              if z2 then if z1 then (if z0 then 0x8DD64D76 else 0x4DB0EF43) else (if z0 then 0x544DAACC else 0xDF0496E4)
              else if z1 then (if z0 then 0xE3B5D19E else 0x1B886A4C) else (if z0 then 0xB81F2CC1 else 0x7F516546)
            else
              if z2 then if z1 then (if z0 then 0x04EA5E9D else 0x5D358C01) else (if z0 then 0x737487FA else 0x2E410BFB)
              else if z1 then (if z0 then 0x5A1D67B3 else 0x52D2DB92) else (if z0 then 0x335610E9 else 0x1347D66D)
        else
          if z4 then
            if z3 then
              if z2 then if z1 then (if z0 then 0x8C61D79A else 0x7A0CA137) else (if z0 then 0x8E14F859 else 0x893C13EB)
              else if z1 then (if z0 then 0xEE27A9CE else 0x35C961B7) else (if z0 then 0xEDE51CE1 else 0x3CB1477A)
            else
              if z2 then if z1 then (if z0 then 0x59DFD29C else 0x3F73F255) else (if z0 then 0x79CE1418 else 0xBF37C773)
              else if z1 then (if z0 then 0xEACDF753 else 0x5BAAFD5F) else (if z0 then 0x146F3DDF else 0x86DB4478)
          else
            if z3 then
              if z2 then if z1 then (if z0 then 0x81F3AFCA else 0x3EC468B9) else (if z0 then 0x2C342438 else 0x5F40A3C2)
              else if z1 then (if z0 then 0x72C31D16 else 0x0C25E2BC) else (if z0 then 0x8B493C28 else 0x41950DFF)
            else
              if z2 then if z1 then (if z0 then 0x7101A839 else 0xDEB30C08) else (if z0 then 0x9CE4B4D8 else 0x90C15664)
              else if z1 then (if z0 then 0x6184CB7B else 0x70B632D5) else (if z0 then 0x745C6C48 else 0x4257B8D0)
  }

  // g_logtable, ln_aes.c:207
  function LogTable(x: bv8): bv8 {
    var z0 := x & 0x01 == 0;
    var z1 := x & 0x02 == 0;
    var z2 := x & 0x04 == 0;
    var z3 := x & 0x08 == 0;
    var z4 := x & 0x10 == 0;
    var z5 := x & 0x20 == 0;
    var z6 := x & 0x40 == 0;
    var z7 := x & 0x80 == 0;
    if z7 then
      if z6 then
        if z5 then
          if z4 then
            if z3 then
              if z2 then if z1 then (if z0 then 0x00 else 0x00) else (if z0 then 0x19 else 0x01)
              else if z1 then (if z0 then 0x32 else 0x02) else (if z0 then 0x1A else 0xC6)
            else
              if z2 then if z1 then (if z0 then 0x4B else 0xC7) else (if z0 then 0x1B else 0x68)
              else if z1 then (if z0 then 0x33 else 0xEE) else (if z0 then 0xDF else 0x03)
          else
            if z3 then
              if z2 then if z1 then (if z0 then 0x64 else 0x04) else (if z0 then 0xE0 else 0x0E)
              else if z1 then (if z0 then 0x34 else 0x8D) else (if z0 then 0x81 else 0xEF)
            else
              if z2 then if z1 then (if z0 then 0x4C else 0x71) else (if z0 then 0x08 else 0xC8)
              else if z1 then (if z0 then 0xF8 else 0x69) else (if z0 then 0x1C else 0xC1)
        else
          if z4 then
            if z3 then
              if z2 then if z1 then (if z0 then 0x7D else 0xC2) else (if z0 then 0x1D else 0xB5)
              else if z1 then (if z0 then 0xF9 else 0xB9) else (if z0 then 0x27 else 0x6A)
            else
              if z2 then if z1 then (if z0 then 0x4D else 0xE4) else (if z0 then 0xA6 else 0x72)
              else if z1 then (if z0 then 0x9A else 0xC9) else (if z0 then 0x09 else 0x78)
          else
            if z3 then
              if z2 then if z1 then (if z0 then 0x65 else 0x2F) else (if z0 then 0x8A else 0x05)
              else if z1 then (if z0 then 0x21 else 0x0F) else (if z0 then 0xE1 else 0x24)
            else
              if z2 then if z1 then (if z0 then 0x12 else 0xF0) else (if z0 then 0x82 else 0x45)
              else if z1 then (if z0 then 0x35 else 0x93) else (if z0 then 0xDA else 0x8E)
      else
        if z5 then
          if z4 then
            if z3 then
              if z2 then if z1 then (if z0 then 0x96 else 0x8F) else (if z0 then 0xDB else 0xBD)
              else if z1 then (if z0 then 0x36 else 0xD0) else (if z0 then 0xCE else 0x94)
            else
              if z2 then if z1 then (if z0 then 0x13 else 0x5C) else (if z0 then 0xD2 else 0xF1)
              else if z1 then (if z0 then 0x40 else 0x46) else (if z0 then 0x83 else 0x38)
          else
            if z3 then
              if z2 then if z1 then (if z0 then 0x66 else 0xDD) else (if z0 then 0xFD else 0x30)
              else if z1 then (if z0 then 0xBF else 0x06) else (if z0 then 0x8B else 0x62)
            else
              if z2 then if z1 then (if z0 then 0xB3 else 0x25) else (if z0 then 0xE2 else 0x98)
              else if z1 then (if z0 then 0x22 else 0x88) else (if z0 then 0x91 else 0x10)
        else
          if z4 then
            if z3 then
              if z2 then if z1 then (if z0 then 0x7E else 0x6E) else (if z0 then 0x48 else 0xC3)
              else if z1 then (if z0 then 0xA3 else 0xB6) else (if z0 then 0x1E else 0x42)
            else
              if z2 then if z1 then (if z0 then 0x3A else 0x6B) else (if z0 then 0x28 else 0x54)
              else if z1 then (if z0 then 0xFA else 0x85) else (if z0 then 0x3D else 0xBA)
          else
            if z3 then
              if z2 then if z1 then (if z0 then 0x2B else 0x79) else (if z0 then 0x0A else 0x15)
              else if z1 then (if z0 then 0x9B else 0x9F) else (if z0 then 0x5E else 0xCA)
            else
              if z2 then if z1 then (if z0 then 0x4E else 0xD4) else (if z0 then 0xAC else 0xE5)
              else if z1 then (if z0 then 0xF3 else 0x73) else (if z0 then 0xA7 else 0x57)
    else
      if z6 then
        if z5 then
          if z4 then
            if z3 then
              if z2 then if z1 then (if z0 then 0xAF else 0x58) else (if z0 then 0xA8 else 0x50)
              else if z1 then (if z0 then 0xF4 else 0xEA) else (if z0 then 0xD6 else 0x74)
            else
              if z2 then if z1 then (if z0 then 0x4F else 0xAE) else (if z0 then 0xE9 else 0xD5)
              else if z1 then (if z0 then 0xE7 else 0xE6) else (if z0 then 0xAD else 0xE8)
          else
            if z3 then
              if z2 then if z1 then (if z0 then 0x2C else 0xD7) else (if z0 then 0x75 else 0x7A)
              else if z1 then (if z0 then 0xEB else 0x16) else (if z0 then 0x0B else 0xF5)
            else
              if z2 then if z1 then (if z0 then 0x59 else 0xCB) else (if z0 then 0x5F else 0xB0)
              else if z1 then (if z0 then 0x9C else 0xA9) else (if z0 then 0x51 else 0xA0)
        else
          if z4 then
            if z3 then
              if z2 then if z1 then (if z0 then 0x7F else 0x0C) else (if z0 then 0xF6 else 0x6F)
              else if z1 then (if z0 then 0x17 else 0xC4) else (if z0 then 0x49 else 0xEC)
            else
              if z2 then if z1 then (if z0 then 0xD8 else 0x43) else (if z0 then 0x1F else 0x2D)
              else if z1 then (if z0 then 0xA4 else 0x76) else (if z0 then 0x7B else 0xB7)
          else
            if z3 then
              if z2 then if z1 then (if z0 then 0xCC else 0xBB) else (if z0 then 0x3E else 0x5A)
              else if z1 then (if z0 then 0xFB else 0x60) else (if z0 then 0xB1 else 0x86)
            else
              if z2 then if z1 then (if z0 then 0x3B else 0x52) else (if z0 then 0xA1 else 0x6C)
              else if z1 then (if z0 then 0xAA else 0x55) else (if z0 then 0x29 else 0x9D)
      else
        if z5 then
          if z4 then
            if z3 then
              if z2 then if z1 then (if z0 then 0x97 else 0xB2) else (if z0 then 0x87 else 0x90)
              else if z1 then (if z0 then 0x61 else 0xBE) else (if z0 then 0xDC else 0xFC)
            else
              if z2 then if z1 then (if z0 then 0xBC else 0x95) else (if z0 then 0xCF else 0xCD)
              else if z1 then (if z0 then 0x37 else 0x3F) else (if z0 then 0x5B else 0xD1)
          else
            if z3 then
              if z2 then if z1 then (if z0 then 0x53 else 0x39) else (if z0 then 0x84 else 0x3C)
              else if z1 then (if z0 then 0x41 else 0xA2) else (if z0 then 0x6D else 0x47)
            else
              if z2 then if z1 then (if z0 then 0x14 else 0x2A) else (if z0 then 0x9E else 0x5D)
              else if z1 then (if z0 then 0x56 else 0xF2) else (if z0 then 0xD3 else 0xAB)
        else
          if z4 then
            if z3 then
              if z2 then if z1 then (if z0 then 0x44 else 0x11) else (if z0 then 0x92 else 0xD9)
              else if z1 then (if z0 then 0x23 else 0x20) else (if z0 then 0x2E else 0x89)
            else
              if z2 then if z1 then (if z0 then 0xB4 else 0x7C) else (if z0 then 0xB8 else 0x26)
              else if z1 then (if z0 then 0x77 else 0x99) else (if z0 then 0xE3 else 0xA5)
          else
            if z3 then
              if z2 then if z1 then (if z0 then 0x67 else 0x4A) else (if z0 then 0xED else 0xDE)
              else if z1 then (if z0 then 0xC5 else 0x31) else (if z0 then 0xFE else 0x18)
            else
              if z2 then if z1 then (if z0 then 0x0D else 0x63) else (if z0 then 0x8C else 0x80)
              else if z1 then (if z0 then 0xC0 else 0xF7) else (if z0 then 0x70 else 0x07)
  }

  // g_alogtable, ln_aes.c:227
  function AlogTable(x: bv8): bv8 {
    var z0 := x & 0x01 == 0;
    var z1 := x & 0x02 == 0;
    var z2 := x & 0x04 == 0;
    var z3 := x & 0x08 == 0;
    var z4 := x & 0x10 == 0;
    var z5 := x & 0x20 == 0;
    var z6 := x & 0x40 == 0;
    var z7 := x & 0x80 == 0;
    if z7 then
      if z6 then
        if z5 then
          if z4 then
            if z3 then
              if z2 then if z1 then (if z0 then 0x01 else 0x03) else (if z0 then 0x05 else 0x0F)
              else if z1 then (if z0 then 0x11 else 0x33) else (if z0 then 0x55 else 0xFF)
            else
              if z2 then if z1 then (if z0 then 0x1A else 0x2E) else (if z0 then 0x72 else 0x96)
              else if z1 then (if z0 then 0xA1 else 0xF8) else (if z0 then 0x13 else 0x35)
          else
            if z3 then
              if z2 then if z1 then (if z0 then 0x5F else 0xE1) else (if z0 then 0x38 else 0x48)
              else if z1 then (if z0 then 0xD8 else 0x73) else (if z0 then 0x95 else 0xA4)
            else
              if z2 then if z1 then (if z0 then 0xF7 else 0x02) else (if z0 then 0x06 else 0x0A)
              else if z1 then (if z0 then 0x1E else 0x22) else (if z0 then 0x66 else 0xAA)
        else
          if z4 then
            if z3 then
              if z2 then if z1 then (if z0 then 0xE5 else 0x34) else (if z0 then 0x5C else 0xE4)
              else if z1 then (if z0 then 0x37 else 0x59) else (if z0 then 0xEB else 0x26)
            else
              if z2 then if z1 then (if z0 then 0x6A else 0xBE) else (if z0 then 0xD9 else 0x70)
              else if z1 then (if z0 then 0x90 else 0xAB) else (if z0 then 0xE6 else 0x31)
          else
            if z3 then
              if z2 then if z1 then (if z0 then 0x53 else 0xF5) else (if z0 then 0x04 else 0x0C)
              else if z1 then (if z0 then 0x14 else 0x3C) else (if z0 then 0x44 else 0xCC)
            else
              if z2 then if z1 then (if z0 then 0x4F else 0xD1) else (if z0 then 0x68 else 0xB8)
              else if z1 then (if z0 then 0xD3 else 0x6E) else (if z0 then 0xB2 else 0xCD)
      else
        if z5 then
          if z4 then
            if z3 then
              if z2 then if z1 then (if z0 then 0x4C else 0xD4) else (if z0 then 0x67 else 0xA9)
              else if z1 then (if z0 then 0xE0 else 0x3B) else (if z0 then 0x4D else 0xD7)
            else
              if z2 then if z1 then (if z0 then 0x62 else 0xA6) else (if z0 then 0xF1 else 0x08)
              else if z1 then (if z0 then 0x18 else 0x28) else (if z0 then 0x78 else 0x88)
          else
            if z3 then
              if z2 then if z1 then (if z0 then 0x83 else 0x9E) else (if z0 then 0xB9 else 0xD0)
              else if z1 then (if z0 then 0x6B else 0xBD) else (if z0 then 0xDC else 0x7F)
            else
              if z2 then if z1 then (if z0 then 0x81 else 0x98) else (if z0 then 0xB3 else 0xCE)
              else if z1 then (if z0 then 0x49 else 0xDB) else (if z0 then 0x76 else 0x9A)
        else
          if z4 then
            if z3 then
              if z2 then if z1 then (if z0 then 0xB5 else 0xC4) else (if z0 then 0x57 else 0xF9)
              else if z1 then (if z0 then 0x10 else 0x30) else (if z0 then 0x50 else 0xF0)
            else
              if z2 then if z1 then (if z0 then 0x0B else 0x1D) else (if z0 then 0x27 else 0x69)
              else if z1 then (if z0 then 0xBB else 0xD6) else (if z0 then 0x61 else 0xA3)
          else
            if z3 then
              if z2 then if z1 then (if z0 then 0xFE else 0x19) else (if z0 then 0x2B else 0x7D)
              else if z1 then (if z0 then 0x87 else 0x92) else (if z0 then 0xAD else 0xEC)
            else
              if z2 then if z1 then (if z0 then 0x2F else 0x71) else (if z0 then 0x93 else 0xAE)
              else if z1 then (if z0 then 0xE9 else 0x20) else (if z0 then 0x60 else 0xA0)
    else
      if z6 then
        if z5 then
          if z4 then
            if z3 then
              if z2 then if z1 then (if z0 then 0xFB else 0x16) else (if z0 then 0x3A else 0x4E)
              else if z1 then (if z0 then 0xD2 else 0x6D) else (if z0 then 0xB7 else 0xC2)
            else
              if z2 then if z1 then (if z0 then 0x5D else 0xE7) else (if z0 then 0x32 else 0x56)
              else if z1 then (if z0 then 0xFA else 0x15) else (if z0 then 0x3F else 0x41)
          else
            if z3 then
              if z2 then if z1 then (if z0 then 0xC3 else 0x5E) else (if z0 then 0xE2 else 0x3D)
              else if z1 then (if z0 then 0x47 else 0xC9) else (if z0 then 0x40 else 0xC0)
            else
              if z2 then if z1 then (if z0 then 0x5B else 0xED) else (if z0 then 0x2C else 0x74)
              else if z1 then (if z0 then 0x9C else 0xBF) else (if z0 then 0xDA else 0x75)
        else
          if z4 then
            if z3 then
              if z2 then if z1 then (if z0 then 0x9F else 0xBA) else (if z0 then 0xD5 else 0x64)
              else if z1 then (if z0 then 0xAC else 0xEF) else (if z0 then 0x2A else 0x7E)
            else
              if z2 then if z1 then (if z0 then 0x82 else 0x9D) else (if z0 then 0xBC else 0xDF)
              else if z1 then (if z0 then 0x7A else 0x8E) else (if z0 then 0x89 else 0x80)
          else
            if z3 then
              if z2 then if z1 then (if z0 then 0x9B else 0xB6) else (if z0 then 0xC1 else 0x58)
              else if z1 then (if z0 then 0xE8 else 0x23) else (if z0 then 0x65 else 0xAF)
            else
              if z2 then if z1 then (if z0 then 0xEA else 0x25) else (if z0 then 0x6F else 0xB1)
              else if z1 then (if z0 then 0xC8 else 0x43) else (if z0 then 0xC5 else 0x54)
      else
        if z5 then
          if z4 then
            if z3 then
              if z2 then if z1 then (if z0 then 0xFC else 0x1F) else (if z0 then 0x21 else 0x63)
              else if z1 then (if z0 then 0xA5 else 0xF4) else (if z0 then 0x07 else 0x09)
            else
              if z2 then if z1 then (if z0 then 0x1B else 0x2D) else (if z0 then 0x77 else 0x99)
              else if z1 then (if z0 then 0xB0 else 0xCB) else (if z0 then 0x46 else 0xCA)
          else
            if z3 then
              if z2 then if z1 then (if z0 then 0x45 else 0xCF) else (if z0 then 0x4A else 0xDE)
              else if z1 then (if z0 then 0x79 else 0x8B) else (if z0 then 0x86 else 0x91)
            else
              if z2 then if z1 then (if z0 then 0xA8 else 0xE3) else (if z0 then 0x3E else 0x42)
              else if z1 then (if z0 then 0xC6 else 0x51) else (if z0 then 0xF3 else 0x0E)
        else
          if z4 then
            if z3 then
              if z2 then if z1 then (if z0 then 0x12 else 0x36) else (if z0 then 0x5A else 0xEE)
              else if z1 then (if z0 then 0x29 else 0x7B) else (if z0 then 0x8D else 0x8C)
            else
              if z2 then if z1 then (if z0 then 0x8F else 0x8A) else (if z0 then 0x85 else 0x94)
              else if z1 then (if z0 then 0xA7 else 0xF2) else (if z0 then 0x0D else 0x17)
          else
            if z3 then
              if z2 then if z1 then (if z0 then 0x39 else 0x4B) else (if z0 then 0xDD else 0x7C)
              else if z1 then (if z0 then 0x84 else 0x97) else (if z0 then 0xA2 else 0xFD)
            else
              if z2 then if z1 then (if z0 then 0x1C else 0x24) else (if z0 then 0x6C else 0xB4)
              else if z1 then (if z0 then 0xC7 else 0x52) else (if z0 then 0xF6 else 0x01)
  }
}
