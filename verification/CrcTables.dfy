// Lookup tables of components/utils/crc32.c and components/utils/crc16.c, entry for entry, as decision trees
// over the eight bits of the index.
module CrcTables {
  // Crc32Table, crc32.c:5
  function Table32(x: bv8): bv32 {
    var z0 := x & 0x01 == 0;
    var z1 := x & 0x02 == 0;
    var z2 := x & 0x04 == 0;
    var z3 := x & 0x08 == 0;
    var z4 := x & 0x10 == 0;
    var z5 := x & 0x20 == 0;
    var z6 := x & 0x40 == 0;
    var z7 := x & 0x80 == 0;
    if z7 then
      if z6 then
        if z5 then
          if z4 then
            if z3 then
              if z2 then if z1 then (if z0 then 0x00000000 else 0x77073096) else (if z0 then 0xEE0E612C else 0x990951BA)
              else if z1 then (if z0 then 0x076DC419 else 0x706AF48F) else (if z0 then 0xE963A535 else 0x9E6495A3)
            else
              if z2 then if z1 then (if z0 then 0x0EDB8832 else 0x79DCB8A4) else (if z0 then 0xE0D5E91E else 0x97D2D988)
              else if z1 then (if z0 then 0x09B64C2B else 0x7EB17CBD) else (if z0 then 0xE7B82D07 else 0x90BF1D91)
          else
            if z3 then
              if z2 then if z1 then (if z0 then 0x1DB71064 else 0x6AB020F2) else (if z0 then 0xF3B97148 else 0x84BE41DE)
              else if z1 then (if z0 then 0x1ADAD47D else 0x6DDDE4EB) else (if z0 then 0xF4D4B551 else 0x83D385C7)
            else
              if z2 then if z1 then (if z0 then 0x136C9856 else 0x646BA8C0) else (if z0 then 0xFD62F97A else 0x8A65C9EC)
              else if z1 then (if z0 then 0x14015C4F else 0x63066CD9) else (if z0 then 0xFA0F3D63 else 0x8D080DF5)
        else
          if z4 then
            if z3 then
              if z2 then if z1 then (if z0 then 0x3B6E20C8 else 0x4C69105E) else (if z0 then 0xD56041E4 else 0xA2677172)
              else if z1 then (if z0 then 0x3C03E4D1 else 0x4B04D447) else (if z0 then 0xD20D85FD else 0xA50AB56B)
            else
              if z2 then if z1 then (if z0 then 0x35B5A8FA else 0x42B2986C) else (if z0 then 0xDBBBC9D6 else 0xACBCF940)
              else if z1 then (if z0 then 0x32D86CE3 else 0x45DF5C75) else (if z0 then 0xDCD60DCF else 0xABD13D59)
          else
            if z3 then
              if z2 then if z1 then (if z0 then 0x26D930AC else 0x51DE003A) else (if z0 then 0xC8D75180 else 0xBFD06116)
              else if z1 then (if z0 then 0x21B4F4B5 else 0x56B3C423) else (if z0 then 0xCFBA9599 else 0xB8BDA50F)
            else
              if z2 then if z1 then (if z0 then 0x2802B89E else 0x5F058808) else (if z0 then 0xC60CD9B2 else 0xB10BE924)
              else if z1 then (if z0 then 0x2F6F7C87 else 0x58684C11) else (if z0 then 0xC1611DAB else 0xB6662D3D)
      else
        if z5 then
          if z4 then
            if z3 then
              if z2 then if z1 then (if z0 then 0x76DC4190 else 0x01DB7106) else (if z0 then 0x98D220BC else 0xEFD5102A)
              else if z1 then (if z0 then 0x71B18589 else 0x06B6B51F) else (if z0 then 0x9FBFE4A5 else 0xE8B8D433)
            else
              if z2 then if z1 then (if z0 then 0x7807C9A2 else 0x0F00F934) else (if z0 then 0x9609A88E else 0xE10E9818)
              else if z1 then (if z0 then 0x7F6A0DBB else 0x086D3D2D) else (if z0 then 0x91646C97 else 0xE6635C01)
          else
            if z3 then
              if z2 then if z1 then (if z0 then 0x6B6B51F4 else 0x1C6C6162) else (if z0 then 0x856530D8 else 0xF262004E)
              else if z1 then (if z0 then 0x6C0695ED else 0x1B01A57B) else (if z0 then 0x8208F4C1 else 0xF50FC457)
            else
              if z2 then if z1 then (if z0 then 0x65B0D9C6 else 0x12B7E950) else (if z0 then 0x8BBEB8EA else 0xFCB9887C)
              else if z1 then (if z0 then 0x62DD1DDF else 0x15DA2D49) else (if z0 then 0x8CD37CF3 else 0xFBD44C65)
        else
          if z4 then
            if z3 then
              if z2 then if z1 then (if z0 then 0x4DB26158 else 0x3AB551CE) else (if z0 then 0xA3BC0074 else 0xD4BB30E2)
              else if z1 then (if z0 then 0x4ADFA541 else 0x3DD895D7) else (if z0 then 0xA4D1C46D else 0xD3D6F4FB)
            else
              if z2 then if z1 then (if z0 then 0x4369E96A else 0x346ED9FC) else (if z0 then 0xAD678846 else 0xDA60B8D0)
              else if z1 then (if z0 then 0x44042D73 else 0x33031DE5) else (if z0 then 0xAA0A4C5F else 0xDD0D7CC9)
          else
            if z3 then
              if z2 then if z1 then (if z0 then 0x5005713C else 0x270241AA) else (if z0 then 0xBE0B1010 else 0xC90C2086)
              else if z1 then (if z0 then 0x5768B525 else 0x206F85B3) else (if z0 then 0xB966D409 else 0xCE61E49F)
            else
              if z2 then if z1 then (if z0 then 0x5EDEF90E else 0x29D9C998) else (if z0 then 0xB0D09822 else 0xC7D7A8B4)
              else if z1 then (if z0 then 0x59B33D17 else 0x2EB40D81) else (if z0 then 0xB7BD5C3B else 0xC0BA6CAD)
    else
      if z6 then
        if z5 then
          if z4 then
            if z3 then
              if z2 then if z1 then (if z0 then 0xEDB88320 else 0x9ABFB3B6) else (if z0 then 0x03B6E20C else 0x74B1D29A)
              else if z1 then (if z0 then 0xEAD54739 else 0x9DD277AF) else (if z0 then 0x04DB2615 else 0x73DC1683)
            else
              if z2 then if z1 then (if z0 then 0xE3630B12 else 0x94643B84) else (if z0 then 0x0D6D6A3E else 0x7A6A5AA8)
              else if z1 then (if z0 then 0xE40ECF0B else 0x9309FF9D) else (if z0 then 0x0A00AE27 else 0x7D079EB1)
          else
            if z3 then
              if z2 then if z1 then (if z0 then 0xF00F9344 else 0x8708A3D2) else (if z0 then 0x1E01F268 else 0x6906C2FE)
              else if z1 then (if z0 then 0xF762575D else 0x806567CB) else (if z0 then 0x196C3671 else 0x6E6B06E7)
            else
              if z2 then if z1 then (if z0 then 0xFED41B76 else 0x89D32BE0) else (if z0 then 0x10DA7A5A else 0x67DD4ACC)
              else if z1 then (if z0 then 0xF9B9DF6F else 0x8EBEEFF9) else (if z0 then 0x17B7BE43 else 0x60B08ED5)
        else
          if z4 then
            if z3 then
              if z2 then if z1 then (if z0 then 0xD6D6A3E8 else 0xA1D1937E) else (if z0 then 0x38D8C2C4 else 0x4FDFF252)
              else if z1 then (if z0 then 0xD1BB67F1 else 0xA6BC5767) else (if z0 then 0x3FB506DD else 0x48B2364B)
            else
              if z2 then if z1 then (if z0 then 0xD80D2BDA else 0xAF0A1B4C) else (if z0 then 0x36034AF6 else 0x41047A60)
              else if z1 then (if z0 then 0xDF60EFC3 else 0xA867DF55) else (if z0 then 0x316E8EEF else 0x4669BE79)
          else
            if z3 then
              if z2 then if z1 then (if z0 then 0xCB61B38C else 0xBC66831A) else (if z0 then 0x256FD2A0 else 0x5268E236)
              else if z1 then (if z0 then 0xCC0C7795 else 0xBB0B4703) else (if z0 then 0x220216B9 else 0x5505262F)
            else
              if z2 then if z1 then (if z0 then 0xC5BA3BBE else 0xB2BD0B28) else (if z0 then 0x2BB45A92 else 0x5CB36A04)
              else if z1 then (if z0 then 0xC2D7FFA7 else 0xB5D0CF31) else (if z0 then 0x2CD99E8B else 0x5BDEAE1D)
      else
        if z5 then
          if z4 then
            if z3 then
              if z2 then if z1 then (if z0 then 0x9B64C2B0 else 0xEC63F226) else (if z0 then 0x756AA39C else 0x026D930A)
              else if z1 then (if z0 then 0x9C0906A9 else 0xEB0E363F) else (if z0 then 0x72076785 else 0x05005713)
            else
              if z2 then if z1 then (if z0 then 0x95BF4A82 else 0xE2B87A14) else (if z0 then 0x7BB12BAE else 0x0CB61B38)
              else if z1 then (if z0 then 0x92D28E9B else 0xE5D5BE0D) else (if z0 then 0x7CDCEFB7 else 0x0BDBDF21)
          else
            if z3 then
              if z2 then if z1 then (if z0 then 0x86D3D2D4 else 0xF1D4E242) else (if z0 then 0x68DDB3F8 else 0x1FDA836E)
              else if z1 then (if z0 then 0x81BE16CD else 0xF6B9265B) else (if z0 then 0x6FB077E1 else 0x18B74777)
            else
              if z2 then if z1 then (if z0 then 0x88085AE6 else 0xFF0F6A70) else (if z0 then 0x66063BCA else 0x11010B5C)
              else if z1 then (if z0 then 0x8F659EFF else 0xF862AE69) else (if z0 then 0x616BFFD3 else 0x166CCF45)
        else
          if z4 then
            if z3 then
              if z2 then if z1 then (if z0 then 0xA00AE278 else 0xD70DD2EE) else (if z0 then 0x4E048354 else 0x3903B3C2)
              else if z1 then (if z0 then 0xA7672661 else 0xD06016F7) else (if z0 then 0x4969474D else 0x3E6E77DB)
            else
              if z2 then if z1 then (if z0 then 0xAED16A4A else 0xD9D65ADC) else (if z0 then 0x40DF0B66 else 0x37D83BF0)
              else if z1 then (if z0 then 0xA9BCAE53 else 0xDEBB9EC5) else (if z0 then 0x47B2CF7F else 0x30B5FFE9)
          else
            if z3 then
              if z2 then if z1 then (if z0 then 0xBDBDF21C else 0xCABAC28A) else (if z0 then 0x53B39330 else 0x24B4A3A6)
              else if z1 then (if z0 then 0xBAD03605 else 0xCDD70693) else (if z0 then 0x54DE5729 else 0x23D967BF)
            else
              if z2 then if z1 then (if z0 then 0xB3667A2E else 0xC4614AB8) else (if z0 then 0x5D681B02 else 0x2A6F2B94)
              else if z1 then (if z0 then 0xB40BBE37 else 0xC30C8EA1) else (if z0 then 0x5A05DF1B else 0x2D02EF8D)
  }

  // crc16tab, crc16.c:5
  function Table16(x: bv8): bv16 {
    var z0 := x & 0x01 == 0;
    var z1 := x & 0x02 == 0;
    var z2 := x & 0x04 == 0;
    var z3 := x & 0x08 == 0;
    var z4 := x & 0x10 == 0;
    var z5 := x & 0x20 == 0;
    var z6 := x & 0x40 == 0;
    var z7 := x & 0x80 == 0;
    if z7 then
      if z6 then
        if z5 then
          if z4 then
            if z3 then
              if z2 then if z1 then (if z0 then 0x0000 else 0x1021) else (if z0 then 0x2042 else 0x3063)
              else if z1 then (if z0 then 0x4084 else 0x50A5) else (if z0 then 0x60C6 else 0x70E7)
            else
              if z2 then if z1 then (if z0 then 0x8108 else 0x9129) else (if z0 then 0xA14A else 0xB16B)
              else if z1 then (if z0 then 0xC18C else 0xD1AD) else (if z0 then 0xE1CE else 0xF1EF)
          else
            if z3 then
              if z2 then if z1 then (if z0 then 0x1231 else 0x0210) else (if z0 then 0x3273 else 0x2252)
              else if z1 then (if z0 then 0x52B5 else 0x4294) else (if z0 then 0x72F7 else 0x62D6)
            else
              if z2 then if z1 then (if z0 then 0x9339 else 0x8318) else (if z0 then 0xB37B else 0xA35A)
              else if z1 then (if z0 then 0xD3BD else 0xC39C) else (if z0 then 0xF3FF else 0xE3DE)
        else
          if z4 then
            if z3 then
              if z2 then if z1 then (if z0 then 0x2462 else 0x3443) else (if z0 then 0x0420 else 0x1401)
              else if z1 then (if z0 then 0x64E6 else 0x74C7) else (if z0 then 0x44A4 else 0x5485)
            else
              if z2 then if z1 then (if z0 then 0xA56A else 0xB54B) else (if z0 then 0x8528 else 0x9509)
              else if z1 then (if z0 then 0xE5EE else 0xF5CF) else (if z0 then 0xC5AC else 0xD58D)
          else
            if z3 then
              if z2 then if z1 then (if z0 then 0x3653 else 0x2672) else (if z0 then 0x1611 else 0x0630)
              else if z1 then (if z0 then 0x76D7 else 0x66F6) else (if z0 then 0x5695 else 0x46B4)
            else
              if z2 then if z1 then (if z0 then 0xB75B else 0xA77A) else (if z0 then 0x9719 else 0x8738)
              else if z1 then (if z0 then 0xF7DF else 0xE7FE) else (if z0 then 0xD79D else 0xC7BC)
      else
        if z5 then
          if z4 then
            if z3 then
              if z2 then if z1 then (if z0 then 0x48C4 else 0x58E5) else (if z0 then 0x6886 else 0x78A7)
              else if z1 then (if z0 then 0x0840 else 0x1861) else (if z0 then 0x2802 else 0x3823)
            else
              if z2 then if z1 then (if z0 then 0xC9CC else 0xD9ED) else (if z0 then 0xE98E else 0xF9AF)
              else if z1 then (if z0 then 0x8948 else 0x9969) else (if z0 then 0xA90A else 0xB92B)
          else
            if z3 then
              if z2 then if z1 then (if z0 then 0x5AF5 else 0x4AD4) else (if z0 then 0x7AB7 else 0x6A96)
              else if z1 then (if z0 then 0x1A71 else 0x0A50) else (if z0 then 0x3A33 else 0x2A12)
            else
              if z2 then if z1 then (if z0 then 0xDBFD else 0xCBDC) else (if z0 then 0xFBBF else 0xEB9E)
              else if z1 then (if z0 then 0x9B79 else 0x8B58) else (if z0 then 0xBB3B else 0xAB1A)
        else
          if z4 then
            if z3 then
              if z2 then if z1 then (if z0 then 0x6CA6 else 0x7C87) else (if z0 then 0x4CE4 else 0x5CC5)
              else if z1 then (if z0 then 0x2C22 else 0x3C03) else (if z0 then 0x0C60 else 0x1C41)
            else
              if z2 then if z1 then (if z0 then 0xEDAE else 0xFD8F) else (if z0 then 0xCDEC else 0xDDCD)
              else if z1 then (if z0 then 0xAD2A else 0xBD0B) else (if z0 then 0x8D68 else 0x9D49)
          else
            if z3 then
              if z2 then if z1 then (if z0 then 0x7E97 else 0x6EB6) else (if z0 then 0x5ED5 else 0x4EF4)
              else if z1 then (if z0 then 0x3E13 else 0x2E32) else (if z0 then 0x1E51 else 0x0E70)
            else
              if z2 then if z1 then (if z0 then 0xFF9F else 0xEFBE) else (if z0 then 0xDFDD else 0xCFFC)
              else if z1 then (if z0 then 0xBF1B else 0xAF3A) else (if z0 then 0x9F59 else 0x8F78)
    else
      if z6 then
        if z5 then
          if z4 then
            if z3 then
              if z2 then if z1 then (if z0 then 0x9188 else 0x81A9) else (if z0 then 0xB1CA else 0xA1EB)
              else if z1 then (if z0 then 0xD10C else 0xC12D) else (if z0 then 0xF14E else 0xE16F)
            else
              if z2 then if z1 then (if z0 then 0x1080 else 0x00A1) else (if z0 then 0x30C2 else 0x20E3)
              else if z1 then (if z0 then 0x5004 else 0x4025) else (if z0 then 0x7046 else 0x6067)
          else
            if z3 then
              if z2 then if z1 then (if z0 then 0x83B9 else 0x9398) else (if z0 then 0xA3FB else 0xB3DA)
              else if z1 then (if z0 then 0xC33D else 0xD31C) else (if z0 then 0xE37F else 0xF35E)
            else
              if z2 then if z1 then (if z0 then 0x02B1 else 0x1290) else (if z0 then 0x22F3 else 0x32D2)
              else if z1 then (if z0 then 0x4235 else 0x5214) else (if z0 then 0x6277 else 0x7256)
        else
          if z4 then
            if z3 then
              if z2 then if z1 then (if z0 then 0xB5EA else 0xA5CB) else (if z0 then 0x95A8 else 0x8589)
              else if z1 then (if z0 then 0xF56E else 0xE54F) else (if z0 then 0xD52C else 0xC50D)
            else
              if z2 then if z1 then (if z0 then 0x34E2 else 0x24C3) else (if z0 then 0x14A0 else 0x0481)
              else if z1 then (if z0 then 0x7466 else 0x6447) else (if z0 then 0x5424 else 0x4405)
          else
            if z3 then
              if z2 then if z1 then (if z0 then 0xA7DB else 0xB7FA) else (if z0 then 0x8799 else 0x97B8)
              else if z1 then (if z0 then 0xE75F else 0xF77E) else (if z0 then 0xC71D else 0xD73C)
            else
              if z2 then if z1 then (if z0 then 0x26D3 else 0x36F2) else (if z0 then 0x0691 else 0x16B0)
              else if z1 then (if z0 then 0x6657 else 0x7676) else (if z0 then 0x4615 else 0x5634)
      else
        if z5 then
          if z4 then
            if z3 then
              if z2 then if z1 then (if z0 then 0xD94C else 0xC96D) else (if z0 then 0xF90E else 0xE92F)
              else if z1 then (if z0 then 0x99C8 else 0x89E9) else (if z0 then 0xB98A else 0xA9AB)
            else
              if z2 then if z1 then (if z0 then 0x5844 else 0x4865) else (if z0 then 0x7806 else 0x6827)
              else if z1 then (if z0 then 0x18C0 else 0x08E1) else (if z0 then 0x3882 else 0x28A3)
          else
            if z3 then
              if z2 then if z1 then (if z0 then 0xCB7D else 0xDB5C) else (if z0 then 0xEB3F else 0xFB1E)
              else if z1 then (if z0 then 0x8BF9 else 0x9BD8) else (if z0 then 0xABBB else 0xBB9A)
            else
              if z2 then if z1 then (if z0 then 0x4A75 else 0x5A54) else (if z0 then 0x6A37 else 0x7A16)
              else if z1 then (if z0 then 0x0AF1 else 0x1AD0) else (if z0 then 0x2AB3 else 0x3A92)
        else
          if z4 then
            if z3 then
              if z2 then if z1 then (if z0 then 0xFD2E else 0xED0F) else (if z0 then 0xDD6C else 0xCD4D)
              else if z1 then (if z0 then 0xBDAA else 0xAD8B) else (if z0 then 0x9DE8 else 0x8DC9)
            else
              if z2 then if z1 then (if z0 then 0x7C26 else 0x6C07) else (if z0 then 0x5C64 else 0x4C45)
              else if z1 then (if z0 then 0x3CA2 else 0x2C83) else (if z0 then 0x1CE0 else 0x0CC1)
          else
            if z3 then
              if z2 then if z1 then (if z0 then 0xEF1F else 0xFF3E) else (if z0 then 0xCF5D else 0xDF7C)
              else if z1 then (if z0 then 0xAF9B else 0xBFBA) else (if z0 then 0x8FD9 else 0x9FF8)
            else
              if z2 then if z1 then (if z0 then 0x6E17 else 0x7E36) else (if z0 then 0x4E55 else 0x5E74)
              else if z1 then (if z0 then 0x2E93 else 0x3EB2) else (if z0 then 0x0ED1 else 0x1EF0)
  }
}
